/** What the receive loop does with the packets it may take, and how a change of source gets
    through (Engine/LiveEngine.cpp): the other half of `ReceiveLoop`, which says what it
    never does. */
module ReceiveProgress {
  import opened Common
  import opened JitterBuffers
  import opened JitterProtocol
  import opened JitterInvariant
  import opened JitterRuns
  import opened JitterCalls
  import opened JitterDrain
  import opened ReceiveLoop

  function Own(side: Side): Event {
    match side
    case Sender => ProducerMoves
    case Receiver => ConsumerMoves
  }

  /** `n` moves of one thread. */
  function Moves(side: Side, n: nat): (r: seq<Event>)
    ensures |r| == n
  {
    if n == 0 then [] else [Own(side)] + Moves(side, n - 1)
  }

  lemma RunOne(l: Loop, e: Event, rest: seq<Event>)
    requires Inv(l.m) && SourceInv(l)
    ensures Shape(l.m) && Inv(Step(l, e).m) && SourceInv(Step(l, e))
    ensures RunLoop(l, [e] + rest) == RunLoop(Step(l, e), rest)
  {
    InvGivesShape(l.m);
    StepKeepsSource(l, e);
    hide Inv, SourceInv, Step;
    assert ([e] + rest)[1..] == rest;
  }

  lemma NoMoves(l: Loop)
    requires Inv(l.m) && SourceInv(l)
    ensures RunLoop(l, []) == l
  {
    hide Inv, SourceInv;
  }

  lemma {:induction false} RunBoth(l: Loop, a: seq<Event>, b: seq<Event>)
    requires Inv(l.m) && SourceInv(l)
    ensures RunLoop(l, a + b) == RunLoop(RunLoop(l, a), b)
    decreases |a|
  {
    hide *;
    if a == [] {
      assert a + b == b;
      NoMoves(l);
    } else {
      assert a == [a[0]] + a[1..] && a + b == [a[0]] + (a[1..] + b);
      RunOne(l, a[0], a[1..] + b);
      RunOne(l, a[0], a[1..]);
      RunBoth(Step(l, a[0]), a[1..], b);
    }
  }

  /** Neither thread's own moves ask for a reset or reopen the socket, and the consumer's
      leave the source alone. */
  ghost predicate SameRequest(l: Loop, r: Loop, side: Side) {
    && r.resetRequested == l.resetRequested && r.socket == l.socket
    && r.arrival == l.arrival
    && (side.Receiver? ==> r.haveSource == l.haveSource && r.source == l.source && r.lastPacket == l.lastPacket
                           && r.m.producer == l.m.producer)
  }

  lemma OneMove(l: Loop, side: Side, a: Action)
    requires Shape(l.m) && Belongs(side, a)
    ensures Step(l, Own(side)).m == Apply(l.m, a) && SameRequest(l, Step(l, Own(side)), side)
  {
    ConsumerAppendsNothing(l.m);
    hide Shape, ProducerStep, ConsumerStep;
  }

  lemma SameRequestTwice(l: Loop, m: Loop, r: Loop, side: Side)
    requires SameRequest(l, m, side) && SameRequest(m, r, side)
    ensures SameRequest(l, r, side)
  {
  }

  /** One thread's schedule on the machine is the same number of its moves in the loop. */
  lemma {:induction false} MovesFollow(l: Loop, side: Side, schedule: seq<Action>)
    requires Inv(l.m) && SourceInv(l) && forall k | 0 <= k < |schedule| :: Belongs(side, schedule[k])
    ensures var r := RunLoop(l, Moves(side, |schedule|)); r.m == Run(l.m, schedule) && SameRequest(l, r, side)
    decreases |schedule|
  {
    hide *;
    var n := |schedule|;
    MovesOne(side, n);
    if n == 0 {
      NoMoves(l);
      NoActions(l.m, schedule);
      SameRequestItself(l, side);
    } else {
      RunOne(l, Own(side), Moves(side, n - 1));
      OneMove(l, side, schedule[0]);
      var next := Step(l, Own(side));
      MovesFollow(next, side, schedule[1..]);
      RunFirst(l.m, schedule);
      SameRequestTwice(l, next, RunLoop(next, Moves(side, n - 1)), side);
    }
  }

  lemma MovesOne(side: Side, n: nat)
    ensures Moves(side, n) == if n == 0 then [] else [Own(side)] + Moves(side, n - 1)
  {
  }

  lemma NoActions(m: Machine, schedule: seq<Action>)
    requires Inv(m) && schedule == []
    ensures Run(m, schedule) == m
  {
    hide Inv;
  }

  lemma SameRequestItself(l: Loop, side: Side)
    ensures SameRequest(l, l, side)
  {
  }

  lemma RunFirst(m: Machine, schedule: seq<Action>)
    requires Inv(m) && schedule != []
    ensures Shape(m) && Inv(Apply(m, schedule[0])) && Run(m, schedule) == Run(Apply(m, schedule[0]), schedule[1..])
  {
    InvGivesShape(m);
    hide Inv, Shape, Apply;
    StepKeepsInv(m, schedule[0]);
  }

  // ----- The source of a push -----

  ghost predicate SourceKept(l: Loop, r: Loop) {
    |r.m.accepted| == |l.m.accepted| ==>
      r.haveSource == l.haveSource && r.source == l.source && r.lastPacket == l.lastPacket && !Placed(r.m.producer)
  }

  lemma MoveKeepsSource(l: Loop)
    requires Shape(l.m) && !Placed(l.m.producer)
    ensures var r := Step(l, ProducerMoves); |r.m.accepted| >= |l.m.accepted| && SourceKept(l, r)
  {
    ProducerAppends(l.m);
    hide Shape, ProducerStep;
  }

  lemma MovesAppend(l: Loop)
    requires Shape(l.m)
    ensures |Step(l, ProducerMoves).m.accepted| >= |l.m.accepted|
  {
    ProducerAppends(l.m);
    hide Shape, ProducerStep;
  }

  /** A push that accepts nothing leaves the source as it was. */
  lemma {:induction false} MovesKeepSource(l: Loop, n: nat)
    requires Inv(l.m) && SourceInv(l)
    ensures var r := RunLoop(l, Moves(Sender, n));
            |r.m.accepted| >= |l.m.accepted| && (!Placed(l.m.producer) ==> SourceKept(l, r))
    decreases n
  {
    hide Inv, SourceInv, Shape, Step;
    if n == 0 {
      assert Moves(Sender, 0) == [];
    } else {
      RunOne(l, ProducerMoves, Moves(Sender, n - 1));
      var next := Step(l, ProducerMoves);
      MovesAppend(l);
      if !Placed(l.m.producer) {
        MoveKeepsSource(l);
      }
      MovesKeepSource(next, n - 1);
    }
  }

  // ----- A packet that may be taken -----

  /** The packet went through the buffer's push, and its source is followed if it was
      accepted. */
  ghost predicate Went(l: Loop, r: Loop, p: Packet, arrival: int)
    requires l.m.core.Valid()
  {
    var (core, ok) := l.m.core.AfterPush(p.sequence, p.payload);
    && r.m.core == core && r.m.producer.Resting? && r.m.consumer == l.m.consumer
    && r.m.accepted == (if ok then l.m.accepted + [p] else l.m.accepted)
    && !r.resetRequested && r.socket == l.socket
    && if ok then r.haveSource && r.source == p.ssrc && r.lastPacket == Some(arrival)
       else r.haveSource == l.haveSource && r.source == l.source && r.lastPacket == l.lastPacket
  }

  /** Nothing speaks against the packet: no reset is outstanding, no other source is
      followed, and the last packet is at most two seconds old. */
  predicate Welcome(l: Loop, p: Packet, arrival: int) {
    && l.m.producer.Resting? && !l.resetRequested && p.socket == l.socket
    && (!l.haveSource || p.ssrc == l.source)
    && (l.lastPacket.Some? ==> arrival - l.lastPacket.value <= 2_000_000_000)
  }

  lemma ReceiveOffers(l: Loop, p: Packet, arrival: int)
    requires Shape(l.m) && Welcome(l, p, arrival)
    ensures Step(l, Receive(p.sequence, p.payload, p.ssrc, arrival)) == l.(m := Apply(l.m, Offer(p)), arrival := arrival)
    ensures !Placed(Apply(l.m, Offer(p)).producer) && Apply(l.m, Offer(p)).accepted == l.m.accepted
  {
  }

  lemma FollowedLast(r: Loop, p: Packet)
    requires SourceInv(r) && r.m.producer.Resting? && !r.resetRequested && p.socket == r.socket
    requires r.m.accepted != [] && r.m.accepted[|r.m.accepted| - 1] == p
    ensures r.haveSource && r.source == p.ssrc
  {
    assert Follows(r, r.m.accepted[|r.m.accepted| - 1]);
  }

  /** A welcome packet is pushed: the loop's own moves end in the buffer of the sequential
      push. */
  lemma PacketIsTaken(l: Loop, p: Packet, arrival: int) returns (n: nat)
    requires Inv(l.m) && SourceInv(l) && Welcome(l, p, arrival)
    ensures l.m.core.Valid()
    ensures Went(l, RunLoop(l, [Receive(p.sequence, p.payload, p.ssrc, arrival)] + Moves(Sender, n)), p, arrival)
  {
    InvGivesShape(l.m);
    assert l.m.core.Valid() && l.m.producer.Resting? && !l.resetRequested && p.socket == l.socket;
    var (core, ok) := l.m.core.AfterPush(p.sequence, p.payload);
    var e := Receive(p.sequence, p.payload, p.ssrc, arrival);
    var accepted := if ok then l.m.accepted + [p] else l.m.accepted;
    ReceiveOffers(l, p, arrival);
    hide *;
    PushAlone(l.m, p);
    var schedule, done := PushSchedule(l.m, p, core, accepted);
    n := |schedule|;
    RunOne(l, e, Moves(Sender, n));
    var offered := Step(l, e);
    MovesFollow(offered, Sender, schedule);
    MovesKeepSource(offered, n);
    MovesKeepTime(offered, n);
    WentSays(l, offered, RunLoop(offered, Moves(Sender, n)), p, arrival, core, ok);
  }

  /** The last packet is the one accepted last, at its arrival. */
  ghost predicate TimeKept(l: Loop, r: Loop) {
    !Placed(l.m.producer) && |r.m.accepted| > |l.m.accepted| && r.m.producer.Resting? ==> r.lastPacket == Some(l.arrival)
  }

  lemma ReturnSetsTime(l: Loop)
    requires Shape(l.m) && Placed(l.m.producer)
    ensures var r := Step(l, ProducerMoves);
            && (Placed(r.m.producer) || (r.m.producer.Resting? && r.lastPacket == Some(l.arrival)))
            && r.m.accepted == l.m.accepted && r.arrival == l.arrival
  {
  }

  lemma RestStays(l: Loop)
    requires Shape(l.m) && l.m.producer.Resting?
    ensures Step(l, ProducerMoves) == l
  {
  }

  lemma {:induction false} PlacedKeepsTime(l: Loop, n: nat)
    requires Inv(l.m) && SourceInv(l)
    requires Placed(l.m.producer) || (l.m.producer.Resting? && l.lastPacket == Some(l.arrival))
    ensures var r := RunLoop(l, Moves(Sender, n)); r.m.producer.Resting? ==> r.lastPacket == Some(l.arrival)
    decreases n
  {
    hide Inv, SourceInv, Shape, Step;
    if n == 0 {
      assert Moves(Sender, 0) == [];
    } else {
      RunOne(l, ProducerMoves, Moves(Sender, n - 1));
      if Placed(l.m.producer) {
        ReturnSetsTime(l);
      } else {
        RestStays(l);
      }
      PlacedKeepsTime(Step(l, ProducerMoves), n - 1);
    }
  }

  lemma MoveKeepsTime(l: Loop)
    requires Shape(l.m)
    ensures Step(l, ProducerMoves).arrival == l.arrival
    ensures var r := Step(l, ProducerMoves); Placed(r.m.producer) || |r.m.accepted| == |l.m.accepted|
  {
    ProducerAppends(l.m);
    hide Shape, ProducerStep;
  }

  lemma {:induction false} MovesKeepTime(l: Loop, n: nat)
    requires Inv(l.m) && SourceInv(l) && !Placed(l.m.producer)
    ensures TimeKept(l, RunLoop(l, Moves(Sender, n)))
    decreases n
  {
    hide Inv, SourceInv, Shape, Step;
    if n == 0 {
      assert Moves(Sender, 0) == [];
    } else {
      RunOne(l, ProducerMoves, Moves(Sender, n - 1));
      MoveKeepsTime(l);
      var next := Step(l, ProducerMoves);
      if Placed(next.m.producer) {
        PlacedKeepsTime(next, n - 1);
      } else {
        MovesKeepTime(next, n - 1);
      }
    }
  }

  lemma PushSchedule(m: Machine, p: Packet, core: Core, accepted: seq<Packet>) returns (schedule: seq<Action>, done: Machine)
    requires Inv(m) && Shape(m) && PushYields(Apply(m, Offer(p)), core, accepted)
    requires Apply(m, Offer(p)).consumer == m.consumer
    ensures var n := Apply(m, Offer(p));
            && Inv(n) && (forall k | 0 <= k < |schedule| :: Belongs(Sender, schedule[k])) && Run(n, schedule) == done
    ensures done.core == core && done.producer.Resting? && done.consumer == m.consumer && done.accepted == accepted
  {
    hide Inv, Shape, Apply;
    var n := Apply(m, Offer(p));
    done :| PushEnds(n, core, accepted, done);
    schedule :| Leads(Sender, n, schedule, done);
  }

  lemma WentSays(l: Loop, offered: Loop, r: Loop, p: Packet, arrival: int, core: Core, ok: bool)
    requires l.m.core.Valid() && l.m.core.AfterPush(p.sequence, p.payload) == (core, ok)
    requires offered == l.(m := offered.m, arrival := arrival)
    requires offered.m.accepted == l.m.accepted && !Placed(offered.m.producer)
    requires SameRequest(offered, r, Sender) && SourceKept(offered, r) && TimeKept(offered, r) && SourceInv(r)
    requires r.m.core == core && r.m.producer.Resting? && r.m.consumer == l.m.consumer && p.socket == l.socket
    requires r.m.accepted == (if ok then l.m.accepted + [p] else l.m.accepted) && !l.resetRequested
    ensures Went(l, r, p, arrival)
  {
    hide Core.AfterPush, SourceInv, Core.Valid;
    if ok {
      FollowedLast(r, p);
    }
  }

  // ----- A change of source -----

  /** A packet after two silent seconds, or of another source, asks for a reset and is followed from
      then on; the packet itself is not kept. */
  lemma ChangeAsksForReset(l: Loop, p: Packet, arrival: int)
    requires Shape(l.m) && l.m.producer.Resting?
    requires || (l.lastPacket.Some? && arrival - l.lastPacket.value > 2_000_000_000)
             || (l.haveSource && p.ssrc != l.source)
    ensures Step(l, Receive(p.sequence, p.payload, p.ssrc, arrival))
            == l.(resetRequested := true, haveSource := true, source := p.ssrc, lastPacket := Some(arrival))
  {
  }

  /** A reopened socket follows no source and remembers no packet, so the next one of any
      source is welcome. */
  lemma ReopenForgets(l: Loop)
    requires Shape(l.m) && l.m.producer.Resting?
    ensures Step(l, Reopen) == l.(haveSource := false, lastPacket := None, socket := l.socket + 1)
  {
  }

  /** The consumer ends its round, if it is in one. */
  lemma ConsumerIdles(l: Loop) returns (k: nat)
    requires Inv(l.m) && SourceInv(l)
    ensures var r := RunLoop(l, Moves(Receiver, k));
            r.m.consumer.Idle? && SameRequest(l, r, Receiver) && SameOutside(l.m, r.m)
    ensures l.m.consumer.Idle? ==> k == 0
  {
    if l.m.consumer.Idle? {
      k := 0;
      hide Inv, SourceInv;
      assert Moves(Receiver, 0) == [];
    } else {
      hide *;
      EveryRoundFinishes(l.m);
      var idle :| Finishes(l.m, idle);
      var schedule := FinishSchedule(l.m, idle);
      k := |schedule|;
      MovesFollow(l, Receiver, schedule);
    }
  }

  lemma FinishSchedule(m: Machine, idle: Machine) returns (schedule: seq<Action>)
    requires Inv(m) && Finishes(m, idle)
    ensures (forall k | 0 <= k < |schedule| :: Belongs(Receiver, schedule[k])) && Run(m, schedule) == idle
    ensures idle.consumer.Idle? && SameOutside(m, idle)
  {
    hide Inv, SameOutside;
    ReachedInside(m, idle);
    schedule :| Leads(Receiver, m, schedule, idle);
  }

  lemma ResetIsDone(l: Loop)
    requires Shape(l.m) && l.m.consumer.Idle? && l.resetRequested
    ensures var r := Step(l, ConsumerChecksReset);
            && r == l.(m := r.m, resetRequested := false) && r.m == ResetNow(l.m)
            && r.m.core == l.m.core.AfterReset() && r.m.accepted == [] && r.m.delivered == []
            && r.m.producer == l.m.producer
  {
  }

  lemma EmptyAccepts(c: Core, p: Packet)
    requires c.Valid() && |p.payload| <= c.maxPayload
    ensures c.AfterReset().Valid() && c.AfterReset().AfterPush(p.sequence, p.payload).1
    ensures c.AfterReset().AfterPush(p.sequence, p.payload).0.buffered == 1
  {
  }

  /** The events that carry a new source through. */
  function ChangeOver(lost: Packet, at: int, k: nat, p: Packet, arrival: int, n: nat): seq<Event> {
    [Receive(lost.sequence, lost.payload, lost.ssrc, at)]
    + (Moves(Receiver, k)
       + ([ConsumerChecksReset] + ([Receive(p.sequence, p.payload, p.ssrc, arrival)] + Moves(Sender, n))))
  }

  /** After a change of source, or a silence, it takes the rest of the consumer's round and
      one look at the request: then the next packet of the new source is the first one of
      an empty buffer. */
  lemma NewSourceIsTaken(l: Loop, lost: Packet, at: int, p: Packet, arrival: int) returns (k: nat, n: nat)
    requires Inv(l.m) && SourceInv(l) && l.m.producer.Resting?
    requires || (l.lastPacket.Some? && at - l.lastPacket.value > 2_000_000_000)
             || (l.haveSource && lost.ssrc != l.source)
    requires p.ssrc == lost.ssrc && p.socket == l.socket && |p.payload| <= l.m.core.maxPayload
    requires arrival - at <= 2_000_000_000
    ensures l.m.consumer.Idle? ==> k == 0
    ensures var r := RunLoop(l, ChangeOver(lost, at, k, p, arrival, n));
            && r.m.accepted == [p] && r.m.core.buffered == 1
            && r.m.producer.Resting? && r.haveSource && r.source == p.ssrc && !r.resetRequested
  {
    InvGivesShape(l.m);
    var first, next := Receive(lost.sequence, lost.payload, lost.ssrc, at), Receive(p.sequence, p.payload, p.ssrc, arrival);
    ChangeAsksForReset(l, lost, at);
    var asked := l.(resetRequested := true, haveSource := true, source := lost.ssrc, lastPacket := Some(at));
    hide *;
    RunOne(l, first, []);
    k := ConsumerIdles(asked);
    var idle := RunLoop(asked, Moves(Receiver, k));
    InvGivesShape(idle.m);
    SameRequestSays(asked, idle);
    ResetIsDone(idle);
    RunOne(idle, ConsumerChecksReset, []);
    var reset := Step(idle, ConsumerChecksReset);
    NowWelcome(reset, p, at, arrival);
    n := PacketIsTaken(reset, p, arrival);
    ShapeGivesValid(idle.m);
    EmptyAccepts(idle.m.core, p);
    var rest := [next] + Moves(Sender, n);
    RunOne(l, first, Moves(Receiver, k) + ([ConsumerChecksReset] + rest));
    RunBoth(asked, Moves(Receiver, k), [ConsumerChecksReset] + rest);
    RunOne(idle, ConsumerChecksReset, rest);
    ChangeOverIs(lost, at, k, p, arrival, n);
    WentInto(reset, RunLoop(reset, rest), p, arrival);
  }

  lemma NowWelcome(l: Loop, p: Packet, at: int, arrival: int)
    requires l.m.producer.Resting? && !l.resetRequested && p.socket == l.socket && p.ssrc == l.source
    requires l.lastPacket == Some(at) && arrival - at <= 2_000_000_000
    ensures Welcome(l, p, arrival)
  {
  }

  lemma ShapeGivesValid(m: Machine)
    requires Shape(m)
    ensures m.core.Valid()
  {
  }

  lemma SameRequestSays(l: Loop, r: Loop)
    requires SameRequest(l, r, Receiver) && SameOutside(l.m, r.m)
    ensures r.resetRequested == l.resetRequested && r.socket == l.socket
    ensures r.haveSource == l.haveSource && r.source == l.source && r.lastPacket == l.lastPacket
    ensures r.m.producer == l.m.producer
    ensures r.m.core.maxPayload == l.m.core.maxPayload
  {
  }

  lemma ChangeOverIs(lost: Packet, at: int, k: nat, p: Packet, arrival: int, n: nat)
    ensures ChangeOver(lost, at, k, p, arrival, n)
            == [Receive(lost.sequence, lost.payload, lost.ssrc, at)]
               + (Moves(Receiver, k)
                  + ([ConsumerChecksReset] + ([Receive(p.sequence, p.payload, p.ssrc, arrival)] + Moves(Sender, n))))
  {
  }

  lemma WentInto(l: Loop, r: Loop, p: Packet, arrival: int)
    requires l.m.core.Valid() && Went(l, r, p, arrival) && l.m.accepted == []
    requires l.m.core.AfterPush(p.sequence, p.payload).1 && l.m.core.AfterPush(p.sequence, p.payload).0.buffered == 1
    ensures r.m.accepted == [p] && r.m.core.buffered == 1 && r.m.producer.Resting?
    ensures r.haveSource && r.source == p.ssrc && !r.resetRequested
  {
    hide Core.AfterPush, Core.Valid;
  }
}
