/** The receive loop of Engine/LiveEngine.cpp around the jitter buffer: it follows one
    RTP source and asks the consumer for a reset when the source changes or resumes
    after a silence. */
module ReceiveLoop {
  import opened Common
  import opened JitterProtocol
  import opened JitterInvariant
  import opened JitterRuns

  const SILENCE: int := 2_000_000_000

  /** `lastPacket` is when the last packet was taken, `arrival` when the one in `push` came,
      in nanoseconds of any clock; `socket` numbers the receive sockets opened so far. */
  datatype Loop = Loop(m: Machine, resetRequested: bool, haveSource: bool, source: u32, lastPacket: Option<int>,
                       arrival: int, socket: nat)

  datatype Event =
    | Reopen
    | Receive(sequence: u16, payload: seq<u8>, ssrc: u32, arrival: int)
    | ProducerMoves
    | ConsumerMoves
    | ConsumerChecksReset

  /** More than two seconds passed since the last packet. */
  predicate Resumes(l: Loop, arrival: int) {
    l.lastPacket.Some? && arrival - l.lastPacket.value > SILENCE
  }

  function Step(l: Loop, e: Event): Loop
    requires Shape(l.m)
  {
    match e
    case Reopen =>
      if !l.m.producer.Resting? then l else l.(haveSource := false, lastPacket := None, socket := l.socket + 1)
    case Receive(sequence, payload, ssrc, arrival) =>
      if !l.m.producer.Resting? then l
      else if Resumes(l, arrival) || (l.haveSource && ssrc != l.source) then
        l.(resetRequested := true, haveSource := true, source := ssrc, lastPacket := Some(arrival))
      else if l.resetRequested then l
      else l.(m := Apply(l.m, Offer(Packet(sequence, payload, ssrc, l.socket))), arrival := arrival)
    case ProducerMoves =>
      var moved := l.(m := Apply(l.m, Produce));
      if l.m.producer.Returning? && l.m.producer.accepted
      then moved.(haveSource := true, source := l.m.producer.packet.ssrc, lastPacket := Some(l.arrival))
      else moved
    case ConsumerMoves => l.(m := Apply(l.m, Consume))
    case ConsumerChecksReset =>
      if l.m.consumer.Idle? && l.resetRequested then l.(m := ResetNow(l.m), resetRequested := false) else l
  }

  /** Packets accepted through one socket have one source. */
  ghost predicate OneSourcePerSocket(accepted: seq<Packet>) {
    forall i, j | 0 <= i < |accepted| && 0 <= j < |accepted| && accepted[i].socket == accepted[j].socket ::
      accepted[i].ssrc == accepted[j].ssrc
  }

  ghost predicate Follows(l: Loop, p: Packet) {
    p.socket == l.socket ==>
      if Placed(l.m.producer) then p.ssrc == l.m.producer.packet.ssrc else l.haveSource && p.ssrc == l.source
  }

  ghost predicate SourceInv(l: Loop) {
    && (l.resetRequested ==> l.m.producer.Resting?)
    && (!l.m.producer.Resting? ==>
          && l.m.producer.packet.socket == l.socket
          && (l.haveSource ==> l.m.producer.packet.ssrc == l.source))
    && (forall k | 0 <= k < |l.m.accepted| :: l.m.accepted[k].socket <= l.socket)
    && OneSourcePerSocket(l.m.accepted)
    && (!l.resetRequested ==> forall k | 0 <= k < |l.m.accepted| :: Follows(l, l.m.accepted[k]))
  }

  /** The producer's step either leaves the accepted packets alone or appends its own. */
  lemma ProducerAppends(m: Machine)
    requires Shape(m)
    ensures var n := ProducerStep(m);
            if m.producer.Copying? && m.producer.copied == |m.producer.packet.payload|
            then n.accepted == m.accepted + [m.producer.packet] && n.producer == Counting(m.producer.packet)
            else n.accepted == m.accepted && (Placed(n.producer) ==> Placed(m.producer))
    ensures var n := ProducerStep(m);
            && (!n.producer.Resting? ==> !m.producer.Resting? && n.producer.packet == m.producer.packet)
            && (Placed(m.producer) ==> Placed(n.producer) || m.producer.Returning?)
  {
  }

  lemma ConsumerAppendsNothing(m: Machine)
    requires Shape(m)
    ensures ConsumerStep(m).accepted == m.accepted && ConsumerStep(m).producer == m.producer
  {
  }

  lemma ProducerKeepsSource(l: Loop)
    requires Shape(l.m) && SourceInv(l)
    ensures SourceInv(Step(l, ProducerMoves))
  {
    var n := Step(l, ProducerMoves);
    assert n.m == ProducerStep(l.m);
    ProducerAppends(l.m);
    hide ProducerStep, Shape;
    var accepted := l.m.accepted;
    assert forall k | 0 <= k < |accepted| :: Follows(l, accepted[k]) || l.resetRequested;
    forall k | 0 <= k < |n.m.accepted|
      ensures Follows(n, n.m.accepted[k]) || n.resetRequested
    {
      if k < |accepted| {
        assert Follows(l, accepted[k]) || l.resetRequested;
      }
    }
  }

  lemma ReceiveKeepsSource(l: Loop, sequence: u16, payload: seq<u8>, ssrc: u32, arrival: int)
    requires Shape(l.m) && SourceInv(l)
    ensures SourceInv(Step(l, Receive(sequence, payload, ssrc, arrival)))
  {
  }

  lemma ConsumerKeepsSource(l: Loop)
    requires Shape(l.m) && SourceInv(l)
    ensures SourceInv(Step(l, ConsumerMoves))
  {
    ConsumerAppendsNothing(l.m);
    var n := Step(l, ConsumerMoves);
    hide Shape, ConsumerStep;
    forall k | 0 <= k < |n.m.accepted|
      ensures Follows(n, n.m.accepted[k]) || n.resetRequested
    {
      assert Follows(l, l.m.accepted[k]) || l.resetRequested;
    }
  }

  /** A reopened socket starts with no source, and a reset with no packets. */
  lemma RestartKeepsSource(l: Loop, e: Event)
    requires Shape(l.m) && SourceInv(l) && (e.Reopen? || e.ConsumerChecksReset?)
    ensures SourceInv(Step(l, e))
  {
  }

  lemma StepKeepsMachine(l: Loop, e: Event)
    requires Inv(l.m) && Shape(l.m) && (l.resetRequested ==> l.m.producer.Resting?)
    ensures Inv(Step(l, e).m)
  {
    hide Inv, Shape, ProducerStep, ConsumerStep, ResetNow;
    match e
    case Reopen =>
    case Receive(sequence, payload, ssrc, _) => StepKeepsInv(l.m, Offer(Packet(sequence, payload, ssrc, l.socket)));
    case ProducerMoves => StepKeepsInv(l.m, Produce);
    case ConsumerMoves => StepKeepsInv(l.m, Consume);
    case ConsumerChecksReset => StepKeepsInv(l.m, ResetIdle);
  }

  lemma StepKeepsSource(l: Loop, e: Event)
    requires Inv(l.m) && SourceInv(l)
    ensures Shape(l.m) && Inv(Step(l, e).m) && SourceInv(Step(l, e))
  {
    InvGivesShape(l.m);
    hide Inv, Shape, Step, OneSourcePerSocket, Follows;
    StepKeepsMachine(l, e);
    match e
    case Receive(sequence, payload, ssrc, arrival) =>
      ReceiveKeepsSource(l, sequence, payload, ssrc, arrival);
    case ProducerMoves => ProducerKeepsSource(l);
    case ConsumerMoves => ConsumerKeepsSource(l);
    case _ => RestartKeepsSource(l, e);
  }

  ghost function RunLoop(l: Loop, events: seq<Event>): (r: Loop)
    requires Inv(l.m) && SourceInv(l)
    ensures Inv(r.m) && SourceInv(r)
    decreases |events|
  {
    hide *;
    if events == [] then l
    else
      StepKeepsSource(l, events[0]);
      RunLoop(Step(l, events[0]), events[1..])
  }

  /** Between two resets, all packets delivered from one receive socket carry the same
      SSRC, for every order of arrivals, gaps, reopenings and thread steps. */
  lemma OneSourceBetweenResets(start: Loop, events: seq<Event>)
    requires Fresh(start.m) && !start.resetRequested && !start.haveSource
    ensures Inv(start.m) && SourceInv(start)
    ensures var r := RunLoop(start, events).m;
            forall i, j | 0 <= i < |r.delivered| && 0 <= j < |r.delivered| ::
              && r.delivered[i].id < |r.accepted| && r.delivered[j].id < |r.accepted|
              && var p, q := r.accepted[r.delivered[i].id], r.accepted[r.delivered[j].id];
              && r.delivered[i].payload == p.payload
              && (p.socket == q.socket ==> p.ssrc == q.ssrc)
  {
    FreshInv(start.m);
    var l := RunLoop(start, events);
    InvGivesAccounting(l.m);
    hide Inv, Shape;
    forall k | 0 <= k < |l.m.delivered|
      ensures Genuine(l.m, l.m.delivered[k])
    {
    }
  }

  lemma InvGivesAccounting(m: Machine)
    requires Inv(m)
    ensures Shape(m) && Accounting(m)
  {
  }

  /** A reset never meets a push in progress, so the loop may treat it as one step. */
  lemma ResetMeetsNoPush(start: Loop, events: seq<Event>)
    requires Fresh(start.m) && !start.resetRequested && !start.haveSource
    ensures Inv(start.m) && SourceInv(start)
    ensures RunLoop(start, events).resetRequested ==> RunLoop(start, events).m.producer.Resting?
  {
    FreshInv(start.m);
    var l := RunLoop(start, events);
    hide Inv;
  }
}
