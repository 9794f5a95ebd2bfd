/** A call that no other thread interrupts does what the sequential functions of
    `JitterBuffers` say: the class and the protocol model the same code. */
module JitterCalls {
  import opened Common
  import opened JitterBuffers
  import opened JitterProtocol
  import opened JitterInvariant
  import opened JitterRuns

  /** Which thread runs alone. */
  datatype Side = Sender | Receiver

  predicate Belongs(side: Side, a: Action) {
    match side
    case Sender => a.Produce?
    case Receiver => a.Consume?
  }

  /** A schedule of one thread's own steps leads from `m` to `n`. */
  ghost predicate Reaches(side: Side, m: Machine, n: Machine) {
    Inv(m) && exists schedule :: Leads(side, m, schedule, n)
  }

  ghost predicate Leads(side: Side, m: Machine, schedule: seq<Action>, n: Machine)
    requires Inv(m)
  {
    && (forall k | 0 <= k < |schedule| :: Belongs(side, schedule[k]))
    && Run(m, schedule) == n
  }

  lemma ReachesItself(side: Side, m: Machine)
    requires Inv(m)
    ensures Reaches(side, m, m)
  {
    hide Inv;
    assert Leads(side, m, [], m);
  }

  lemma ReachesAfter(side: Side, m: Machine, a: Action, n: Machine)
    requires Inv(m) && Shape(m) && Belongs(side, a) && Reaches(side, Apply(m, a), n)
    ensures Reaches(side, m, n)
  {
    hide Inv, Shape, Apply;
    var rest :| Leads(side, Apply(m, a), rest, n);
    assert ([a] + rest)[1..] == rest;
    assert Leads(side, m, [a] + rest, n);
  }

  lemma ReachesThen(side: Side, l: Machine, m: Machine, n: Machine)
    requires Reaches(side, l, m) && Reaches(side, m, n)
    ensures Reaches(side, l, n)
  {
    hide Inv;
    var a :| Leads(side, l, a, m);
    var b :| Leads(side, m, b, n);
    RunAppend(l, a, b);
    assert Leads(side, l, a + b, n);
  }

  // ----- push -----

  /** The value the buffer has when the producer's call returns, from any point after
      the packet was placed or refused. */
  function SettledCore(c: Core, p: Producer): Core
    requires !AtSlot(p)
  {
    match p
    case Resting => c
    case Returning(_, _) => c
    case Dropping(_) => c.(dropped := Inc64(c.dropped))
    case Starting(_) => c.(started := true)
    case StoringExpected(_, v) => c.(expected := v, started := true)
    case LoadingFirst(_) => c.(expected := c.first, started := true)
    case Comparing(_) => if c.buffered >= c.target then c.(expected := c.first, started := true) else c
    case StoringFirst(q) =>
      if c.buffered >= c.target then c.(first := q.sequence, expected := q.sequence, started := true)
      else c.(first := q.sequence)
    case Electing(q) => c.(started := false).AfterStartRule(q.sequence)
    case LoadingStarted(q) => c.AfterStartRule(q.sequence)
    case Counting(q) => c.(buffered := Inc64(c.buffered)).AfterStartRule(q.sequence)
  }

  function SettleRank(p: Producer): nat {
    match p
    case Resting => 0
    case Returning(_, _) => 1
    case Dropping(_) => 2
    case Starting(_) => 2
    case StoringExpected(_, _) => 3
    case LoadingFirst(_) => 4
    case Comparing(_) => 5
    case StoringFirst(_) => 6
    case Electing(_) => 7
    case LoadingStarted(_) => 8
    case _ => 9
  }

  lemma SettleOneStep(c: Core, at: Producer)
    requires !AtSlot(at) && !at.Resting? && (BeforeStart(at) ==> !c.started)
    ensures var (core, next) := CounterMove(c, at);
            && !AtSlot(next)
            && SettledCore(core, next) == SettledCore(c, at)
            && SettleRank(next) < SettleRank(at)
  {
  }

  lemma InvGivesNotStarted(m: Machine)
    requires Inv(m)
    ensures Shape(m) && (BeforeStart(m.producer) ==> !m.core.started)
  {
  }

  lemma {:induction false} SettleAlone(m: Machine)
    requires Inv(m) && !AtSlot(m.producer)
    ensures Reaches(Sender, m, m.(core := SettledCore(m.core, m.producer), producer := Resting))
    decreases SettleRank(m.producer)
  {
    InvGivesNotStarted(m);
    hide Inv, Shape;
    if m.producer.Resting? {
      ReachesItself(Sender, m);
    } else {
      StepKeepsInv(m, Produce);
      SettleOneStep(m.core, m.producer);
      SettleAlone(CounterStep(m));
      ReachesAfter(Sender, m, Produce, m.(core := SettledCore(m.core, m.producer), producer := Resting));
    }
  }

  /** The machine at the moment the packet is published, from any point of filling the slot. */
  ghost function Published(m: Machine): Machine
    requires Shape(m) && Filling(m.producer)
  {
    var p := m.producer.packet;
    var i := m.core.Home(p.sequence);
    var slot := m.core.slots[i];
    var k := if m.producer.Copying? then m.producer.copied else 0;
    var bytes := slot.payload[..k] + p.payload[k..] + slot.payload[|p.payload|..];
    m.Put(i, Slot(Ready, if m.producer.StoringSequence? then p.sequence else slot.sequence,
                  if m.producer.Copying? then slot.length else |p.payload|, bytes))
     .(producer := Counting(p), accepted := m.accepted + [p], fates := m.fates + [Stored],
       tags := m.tags[i := |m.accepted|])
  }

  function FillRank(p: Producer): nat {
    match p
    case StoringSequence(q) => |q.payload| + 3
    case StoringLength(q) => |q.payload| + 2
    case Copying(q, k) => if k <= |q.payload| then |q.payload| - k + 1 else 0
    case _ => 0
  }

  lemma FillNumbers(m: Machine)
    requires Shape(m) && (m.producer.StoringSequence? || m.producer.StoringLength?)
    requires m.core.slots[m.core.Home(m.producer.packet.sequence)].state.Writing?
    requires Shape(SlotStep(m))
    ensures var n := SlotStep(m);
            Filling(n.producer) && Published(n) == Published(m) && FillRank(n.producer) < FillRank(m.producer)
  {
    var n := SlotStep(m);
    assert Published(n).core.slots == Published(m).core.slots;
  }

  lemma FillByte(m: Machine)
    requires Shape(m) && m.producer.Copying? && m.producer.copied < |m.producer.packet.payload|
    requires m.core.slots[m.core.Home(m.producer.packet.sequence)].state.Writing?
    requires Shape(SlotStep(m))
    ensures var n := SlotStep(m);
            Filling(n.producer) && Published(n) == Published(m) && FillRank(n.producer) < FillRank(m.producer)
  {
    var p, k := m.producer.packet, m.producer.copied;
    CopyOne(m.core.slots[m.core.Home(p.sequence)].payload, p.payload, k);
    var n := SlotStep(m);
    assert Published(n).core.slots == Published(m).core.slots;
  }

  lemma FillOneStep(m: Machine)
    requires Shape(m) && Filling(m.producer)
    requires m.core.slots[m.core.Home(m.producer.packet.sequence)].state.Writing?
    requires Shape(SlotStep(m))
    ensures var n := SlotStep(m);
            if m.producer.Copying? && m.producer.copied == |m.producer.packet.payload| then n == Published(m)
            else Filling(n.producer) && Published(n) == Published(m) && FillRank(n.producer) < FillRank(m.producer)
  {
    var p := m.producer.packet;
    if !m.producer.Copying? {
      FillNumbers(m);
    } else if m.producer.copied < |p.payload| {
      FillByte(m);
    } else {
      var slot := m.core.slots[m.core.Home(p.sequence)];
      assert slot.payload[..|p.payload|] + p.payload[|p.payload|..] + slot.payload[|p.payload|..] == slot.payload;
    }
  }

  lemma CopyOne(old': seq<int>, source: seq<int>, k: nat)
    requires k < |source| <= |old'|
    ensures var after := old'[k := source[k]];
            after[..k + 1] + source[k + 1..] + after[|source|..] == old'[..k] + source[k..] + old'[|source|..]
  {
  }

  lemma {:induction false} FillAlone(m: Machine)
    requires Inv(m) && Filling(m.producer)
    ensures Shape(m) && Reaches(Sender, m, Published(m))
    decreases FillRank(m.producer)
  {
    InvGivesOwnership(m);
    assert m.core.slots[m.core.Home(m.producer.packet.sequence)].state.Writing?;
    hide Inv;
    StepKeepsInv(m, Produce);
    var n := SlotStep(m);
    InvGivesShape(n);
    hide Shape, Ownership;
    FillOneStep(m);
    if m.producer.Copying? && m.producer.copied == |m.producer.packet.payload| {
      ReachesItself(Sender, n);
    } else {
      FillAlone(n);
    }
    ReachesAfter(Sender, m, Produce, Published(m));
  }

  /** Claiming, filling and settling compose to the sequential push. */
  lemma ClaimedPush(m: Machine)
    requires Shape(m) && m.producer.Claiming? && Shape(SlotStep(m))
    ensures var p := m.producer.packet;
            var (core, ok) := m.core.AfterPush(p.sequence, p.payload);
            var n := SlotStep(m);
            if n.producer.Dropping? then !ok && core == SettledCore(n.core, n.producer)
            else ok && Filling(n.producer) && core == SettledCore(Published(n).core, Published(n).producer)
  {
    var p := m.producer.packet;
    var i := m.core.Home(p.sequence);
    var n := SlotStep(m);
    if !n.producer.Dropping? {
      var bytes := m.core.slots[i].payload;
      assert bytes[..0] + p.payload[0..] + bytes[|p.payload|..] == Overwrite(bytes, p.payload);
      assert Published(n).core.slots
             == m.core.slots[i := Slot(Ready, p.sequence, |p.payload|, Overwrite(bytes, p.payload))];
    }
  }

  /** Where a push of `p` ends that starts from `m`. */
  ghost predicate PushEnds(m: Machine, core: Core, accepted: seq<Packet>, n: Machine) {
    Reaches(Sender, m, n) && n.core == core && n.producer.Resting? && n.consumer == m.consumer && n.accepted == accepted
  }

  ghost predicate PushYields(m: Machine, core: Core, accepted: seq<Packet>) {
    exists n :: PushEnds(m, core, accepted, n)
  }

  lemma PushYieldsAfter(m: Machine, a: Action, core: Core, accepted: seq<Packet>)
    requires Inv(m) && Shape(m) && Belongs(Sender, a)
    requires var n := Apply(m, a); n.consumer == m.consumer && PushYields(n, core, accepted)
    ensures PushYields(m, core, accepted)
  {
    hide Inv, Shape, Apply, PushEnds;
    var done :| PushEnds(Apply(m, a), core, accepted, done);
    PushEndsAfter(m, a, core, accepted, done);
  }

  lemma PushEndsAfter(m: Machine, a: Action, core: Core, accepted: seq<Packet>, done: Machine)
    requires Inv(m) && Shape(m) && Belongs(Sender, a)
    requires var n := Apply(m, a); n.consumer == m.consumer && PushEnds(n, core, accepted, done)
    ensures PushEnds(m, core, accepted, done)
  {
    hide Inv, Shape, Apply;
    ReachesAfter(Sender, m, a, done);
  }

  lemma DropAlone(m: Machine)
    requires Inv(m) && m.producer.Dropping?
    ensures PushYields(m, SettledCore(m.core, m.producer), m.accepted)
  {
    hide Inv, SettledCore;
    SettleAlone(m);
    assert PushEnds(m, SettledCore(m.core, m.producer), m.accepted,
                    m.(core := SettledCore(m.core, m.producer), producer := Resting));
  }

  lemma StoreAlone(m: Machine)
    requires Inv(m) && Filling(m.producer)
    ensures Shape(m)
    ensures var full := Published(m);
            PushYields(m, SettledCore(full.core, full.producer), m.accepted + [m.producer.packet])
  {
    FillAlone(m);
    var full := Published(m);
    ReachesKeepsInv(Sender, m, full);
    assert full.accepted == m.accepted + [m.producer.packet] && full.consumer == m.consumer && full.producer.Counting?;
    hide Inv, Shape, SettledCore, Published;
    SettleAlone(full);
    var done := full.(core := SettledCore(full.core, full.producer), producer := Resting);
    ReachesThen(Sender, m, full, done);
    assert PushEnds(m, SettledCore(full.core, full.producer), m.accepted + [m.producer.packet], done);
  }

  lemma ReachesKeepsInv(side: Side, m: Machine, n: Machine)
    requires Reaches(side, m, n)
    ensures Inv(n)
  {
    hide Inv;
    var schedule :| Leads(side, m, schedule, n);
  }

  lemma ClaimAlone(m: Machine)
    requires Inv(m) && m.producer.Claiming?
    ensures Shape(m)
    ensures var p := m.producer.packet;
            var (core, ok) := m.core.AfterPush(p.sequence, p.payload);
            PushYields(m, core, if ok then m.accepted + [p] else m.accepted)
  {
    InvGivesShape(m);
    StepKeepsInv(m, Produce);
    var n := SlotStep(m);
    InvGivesShape(n);
    ClaimedPush(m);
    var p := m.producer.packet;
    var (core, ok) := m.core.AfterPush(p.sequence, p.payload);
    assert Apply(m, Produce) == n && n.consumer == m.consumer && n.accepted == m.accepted;
    assert n.producer.Dropping? || (Filling(n.producer) && n.producer.packet == p);
    hide *;
    if n.producer.Dropping? {
      DropAlone(n);
      PushYieldsAfter(m, Produce, core, m.accepted);
    } else {
      StoreAlone(n);
      PushYieldsAfter(m, Produce, core, m.accepted + [p]);
    }
  }

  /** Once the packet is offered, the producer's own steps are the sequential push, and
      accept what that accepts. */
  lemma PushAlone(m: Machine, p: Packet)
    requires Inv(m) && m.producer.Resting?
    ensures Shape(m)
    ensures var (core, ok) := m.core.AfterPush(p.sequence, p.payload);
            PushYields(Apply(m, Offer(p)), core, if ok then m.accepted + [p] else m.accepted)
    ensures Apply(m, Offer(p)).consumer == m.consumer
  {
    InvGivesShape(m);
    hide Inv;
    StepKeepsInv(m, Offer(p));
    var n := Apply(m, Offer(p));
    var (core, ok) := m.core.AfterPush(p.sequence, p.payload);
    assert n == m.(producer := n.producer);
    if n.producer.Dropping? {
      assert !ok && core == SettledCore(n.core, n.producer);
      hide *;
      DropAlone(n);
    } else {
      assert n.producer == Claiming(p);
      hide *;
      ClaimAlone(n);
    }
  }

  // ----- one round of the consumer -----

  /** The value the buffer has at the end of the round, from any point outside a slot. */
  function RoundCore(c: Core, at: Consumer): Core
    requires !InSlot(at)
  {
    match at
    case Idle => c
    case LoadingExpected => c
    case SkipCounting => c.(lost := Inc64(c.lost))
    case SkipStoring(v) => c.(expected := Next16(v), lost := Inc64(c.lost))
    case SkipLoading => c.(expected := Next16(c.expected), lost := Inc64(c.lost))
    case LoadingStartedAgain => c.AfterSkip()
    case LoadingBuffered => if c.buffered > 0 then c.AfterSkip() else c
    case PopFailed => if c.started && c.buffered > 0 then c.AfterSkip() else c
    case UncountingStale =>
      var d := c.(buffered := Dec64(c.buffered));
      if d.started && d.buffered > 0 then d.AfterSkip() else d
    case Advancing(s) => c.(expected := Next16(s))
    case Uncounting(s) => c.(buffered := Dec64(c.buffered), expected := Next16(s))
  }

  function RoundRank(at: Consumer): nat {
    match at
    case Idle => 0
    case SkipCounting => 1
    case SkipStoring(_) => 2
    case SkipLoading => 3
    case LoadingStartedAgain => 4
    case LoadingBuffered => 5
    case PopFailed => 6
    case UncountingStale => 7
    case Advancing(_) => 1
    case Uncounting(_) => 2
    case _ => 8
  }

  lemma RoundOneStep(c: Core, at: Consumer)
    requires !InSlot(at) && !at.Idle? && !at.LoadingExpected?
    ensures var (core, next) := RoundMove(c, at);
            && !InSlot(next) && !next.LoadingExpected?
            && RoundCore(core, next) == RoundCore(c, at)
            && RoundRank(next) < RoundRank(at)
  {
  }

  /** Where a round ends that starts from `m` and hands out `delivered`. */
  ghost predicate RoundEnds(m: Machine, core: Core, delivered: seq<Sent>, n: Machine) {
    && Reaches(Receiver, m, n) && n.core == core && n.consumer.Idle? && n.producer == m.producer
    && n.accepted == m.accepted && n.delivered == delivered && n.capacity == m.capacity
  }

  /** A consumer step that hands out nothing can be put in front of a round. */
  lemma RoundEndsAfter(m: Machine, core: Core, delivered: seq<Sent>, done: Machine)
    requires Inv(m) && Shape(m)
    requires var n := ConsumerStep(m);
             && n.producer == m.producer && n.accepted == m.accepted && n.capacity == m.capacity
             && RoundEnds(n, core, delivered, done)
    ensures RoundEnds(m, core, delivered, done)
  {
    hide Inv, Shape, ConsumerStep;
    ReachesAfter(Receiver, m, Consume, done);
  }

  lemma {:induction false} RoundAlone(m: Machine)
    requires Inv(m) && !InSlot(m.consumer) && !m.consumer.LoadingExpected?
    ensures exists n :: RoundEnds(m, RoundCore(m.core, m.consumer), m.delivered, n)
    decreases RoundRank(m.consumer)
  {
    InvGivesShape(m);
    hide Inv, Shape;
    if m.consumer.Idle? {
      ReachesItself(Receiver, m);
      assert RoundEnds(m, RoundCore(m.core, m.consumer), m.delivered, m);
    } else {
      StepKeepsInv(m, Consume);
      RoundOneStep(m.core, m.consumer);
      var n := RoundStep(m);
      RoundAlone(n);
      var done :| RoundEnds(n, RoundCore(n.core, n.consumer), n.delivered, done);
      RoundEndsAfter(m, RoundCore(m.core, m.consumer), m.delivered, done);
    }
  }

  /** The machine at the moment the slot is released, from any point of copying out. */
  ghost function Released(m: Machine): Machine
    requires Shape(m) && m.consumer.Fetching?
  {
    var s := m.consumer.sequence;
    var i := m.core.Home(s);
    var slot := m.core.slots[i];
    var out := if |m.consumer.out| <= slot.length then m.consumer.out + slot.payload[|m.consumer.out|..slot.length] else [];
    m.Put(i, slot.(state := Empty)).(consumer := Uncounting(s), fates := m.fates[m.tags[i] := Handed],
                                     delivered := m.delivered + [Sent(m.tags[i], m.advanced, s, out)])
  }

  lemma FetchOne(m: Machine)
    requires Shape(m) && Progress(m) && m.consumer.Fetching? && Shape(TakeStep(m))
    ensures var n := TakeStep(m);
            if |m.consumer.out| == m.core.slots[m.core.Home(m.consumer.sequence)].length then n == Released(m)
            else
              && n.consumer.Fetching? && Released(n) == Released(m)
              && n.core == m.core && n.consumer.sequence == m.consumer.sequence
              && |n.consumer.out| == |m.consumer.out| + 1 <= m.core.slots[m.core.Home(m.consumer.sequence)].length
  {
    var slot := m.core.slots[m.core.Home(m.consumer.sequence)];
    var n := TakeStep(m);
    var k := |m.consumer.out|;
    if k == slot.length {
      assert m.consumer.out + slot.payload[k..k] == m.consumer.out;
    } else {
      assert n.consumer.out + slot.payload[k + 1..slot.length] == m.consumer.out + slot.payload[k..slot.length];
    }
  }

  lemma FetchStep(m: Machine)
    requires Shape(m) && m.consumer.Fetching?
    ensures InSlot(m.consumer) && Apply(m, Consume) == TakeStep(m)
  {
  }

  lemma {:induction false} FetchAlone(m: Machine)
    requires Inv(m) && m.consumer.Fetching?
    ensures Shape(m) && Reaches(Receiver, m, Released(m))
    decreases m.core.slots[m.core.Home(m.consumer.sequence)].length - |m.consumer.out|
  {
    hide *;
    InvGivesProgress(m);
    FetchStep(m);
    StepKeepsInv(m, Consume);
    var n := TakeStep(m);
    InvGivesShape(n);
    FetchOne(m);
    if n == Released(m) {
      ReachesItself(Receiver, n);
    } else {
      FetchAlone(n);
    }
    ConsumerOwns();
    ReachesAfter(Receiver, m, Consume, Released(m));
  }

  lemma ConsumerOwns()
    ensures Belongs(Receiver, Consume)
  {
  }

  lemma InvGivesProgress(m: Machine)
    requires Inv(m)
    ensures Shape(m) && Progress(m)
  {
  }

  function Outcome(delivered: seq<Sent>): seq<Delivery> {
    seq(|delivered|, i requires 0 <= i < |delivered| => Delivery(delivered[i].sequence, delivered[i].payload))
  }

  /** The buffer and the packet after releasing the slot the consumer reads. */
  ghost function TakenCore(m: Machine): Core
    requires Shape(m) && (m.consumer.Fetching? || m.consumer.Discarding?)
  {
    var i := m.core.Home(m.consumer.sequence);
    var c := m.core.(slots := m.core.slots[i := m.core.slots[i].(state := Empty)], buffered := Dec64(m.core.buffered));
    if m.consumer.Fetching? then c.(expected := Next16(m.consumer.sequence))
    else if c.started && c.buffered > 0 then c.AfterSkip() else c
  }

  ghost function TakenOutcome(m: Machine): seq<Delivery>
    requires Shape(m)
  {
    if m.consumer.Fetching? then
      var slot := m.core.slots[m.core.Home(m.consumer.sequence)];
      [Delivery(m.consumer.sequence, slot.payload[..slot.length])]
    else []
  }

  /** A round from `m` can end with the buffer `core`, having handed out `handed`. */
  ghost predicate RoundYields(m: Machine, core: Core, handed: seq<Delivery>) {
    exists n, delivered :: RoundEnds(m, core, delivered, n) && Outcome(delivered) == Outcome(m.delivered) + handed
  }

  lemma YieldsNothing(m: Machine, core: Core, n: Machine)
    requires RoundEnds(m, core, m.delivered, n)
    ensures RoundYields(m, core, [])
  {
    hide RoundEnds;
    assert Outcome(m.delivered) == Outcome(m.delivered) + [];
  }

  lemma YieldsAfter(m: Machine, core: Core, handed: seq<Delivery>)
    requires Inv(m) && Shape(m)
    requires var n := ConsumerStep(m);
             && n.producer == m.producer && n.accepted == m.accepted && n.delivered == m.delivered
             && n.capacity == m.capacity && RoundYields(n, core, handed)
    ensures RoundYields(m, core, handed)
  {
    hide Inv, Shape, ConsumerStep, RoundEnds;
    var done, delivered :| RoundEnds(ConsumerStep(m), core, delivered, done)
                           && Outcome(delivered) == Outcome(m.delivered) + handed;
    RoundEndsAfter(m, core, delivered, done);
  }

  lemma FetchedAlone(m: Machine)
    requires Inv(m) && Shape(m) && m.consumer.Fetching? && m.consumer.out == []
    ensures RoundYields(m, TakenCore(m), TakenOutcome(m))
  {
    var core, handed := TakenCore(m), TakenOutcome(m);
    var n := Released(m);
    hide *;
    ReleasedSays(m);
    FetchAlone(m);
    ReachesKeepsInv(Receiver, m, n);
    RoundAlone(n);
    var done :| RoundEnds(n, core, n.delivered, done);
    RoundEndsThen(m, n, core, done);
    YieldsWith(m, core, handed, n.delivered, done);
  }

  lemma ReleasedSays(m: Machine)
    requires Inv(m) && Shape(m) && m.consumer.Fetching? && m.consumer.out == []
    ensures var n := Released(m);
            && !InSlot(n.consumer) && !n.consumer.LoadingExpected? && RoundCore(n.core, n.consumer) == TakenCore(m)
            && Outcome(n.delivered) == Outcome(m.delivered) + TakenOutcome(m)
            && n.producer == m.producer && n.accepted == m.accepted && n.capacity == m.capacity
  {
    InvGivesProgress(m);
    hide Inv;
    var n := Released(m);
    var slot := m.core.slots[m.core.Home(m.consumer.sequence)];
    assert [] + slot.payload[0..slot.length] == slot.payload[..slot.length];
    assert Outcome(n.delivered) == Outcome(m.delivered) + TakenOutcome(m);
  }

  lemma RoundEndsThen(m: Machine, n: Machine, core: Core, done: Machine)
    requires Reaches(Receiver, m, n) && RoundEnds(n, core, n.delivered, done)
    requires n.producer == m.producer && n.accepted == m.accepted && n.capacity == m.capacity
    ensures RoundEnds(m, core, n.delivered, done)
  {
    hide Reaches;
    ReachesThen(Receiver, m, n, done);
  }

  lemma YieldsWith(m: Machine, core: Core, handed: seq<Delivery>, delivered: seq<Sent>, done: Machine)
    requires RoundEnds(m, core, delivered, done) && Outcome(delivered) == Outcome(m.delivered) + handed
    ensures RoundYields(m, core, handed)
  {
  }

  lemma DiscardedAlone(m: Machine)
    requires Inv(m) && Shape(m) && m.consumer.Discarding?
    ensures RoundYields(m, TakenCore(m), TakenOutcome(m))
  {
    StepKeepsInv(m, Consume);
    var n := TakeStep(m);
    assert ConsumerStep(m) == n && RoundCore(n.core, n.consumer) == TakenCore(m) && TakenOutcome(m) == [];
    assert n.producer == m.producer && n.accepted == m.accepted && n.capacity == m.capacity;
    assert n.delivered == m.delivered && n.consumer.UncountingStale?;
    var core := TakenCore(m);
    hide Inv, Shape, RoundCore, TakeStep, ConsumerStep, TakenCore, TakenOutcome;
    RoundAlone(n);
    var done :| RoundEnds(n, core, m.delivered, done);
    RoundEndsAfter(m, core, m.delivered, done);
    YieldsNothing(m, core, done);
  }

  lemma TakenAlone(m: Machine)
    requires Inv(m) && Shape(m) && (m.consumer.Fetching? || m.consumer.Discarding?)
    requires m.consumer.Fetching? ==> m.consumer.out == []
    ensures RoundYields(m, TakenCore(m), TakenOutcome(m))
  {
    hide *;
    if m.consumer.Fetching? {
      FetchedAlone(m);
    } else {
      DiscardedAlone(m);
    }
  }

  /** Taking, checking and releasing compose to the sequential round. */
  lemma TakenRound(m: Machine)
    requires Shape(m) && m.consumer == Taking(m.core.expected) && m.core.started && Shape(TakeStep(m))
    requires TakeStep(m).consumer.Checking? ==> Shape(TakeStep(TakeStep(m)))
    ensures var (core, handed) := m.core.AfterRound(m.capacity);
            var n := TakeStep(m);
            if n.consumer.PopFailed? then
              handed.None? && core == RoundCore(n.core, n.consumer) && n.(consumer := m.consumer) == m
            else
              && n.consumer.Checking?
              && var o := TakeStep(n);
              && (o.consumer.Discarding? || (o.consumer.Fetching? && o.consumer.out == []))
              && n.(core := m.core, consumer := m.consumer) == o.(core := m.core, consumer := m.consumer) == m
              && core == TakenCore(o)
              && TakenOutcome(o) == (if handed.Some? then [handed.value] else [])
  {
    var i := m.core.Home(m.core.expected);
    var n := TakeStep(m);
    if n.consumer.Checking? {
      assert n.core.slots[i := n.core.slots[i].(state := Empty)] == m.core.slots[i := m.core.slots[i].(state := Empty)];
    }
  }

  lemma TakeStepsKeepInv(m: Machine)
    requires Inv(m) && m.consumer.Taking?
    ensures Shape(m) && Inv(TakeStep(m)) && Shape(TakeStep(m))
    ensures TakeStep(m).consumer.Checking? ==>
              Inv(TakeStep(TakeStep(m))) && Shape(TakeStep(TakeStep(m)))
  {
    InvGivesShape(m);
    var n := TakeStep(m);
    assert ConsumerStep(m) == n;
    assert n.consumer.Checking? ==> InSlot(n.consumer);
    StepKeepsInv(m, Consume);
    assert Apply(m, Consume) == n;
    hide *;
    InvGivesShape(n);
    if n.consumer.Checking? {
      CheckKeepsInv(n);
    }
  }

  lemma CheckKeepsInv(m: Machine)
    requires Inv(m) && m.consumer.Checking?
    ensures Shape(m) && Inv(TakeStep(m)) && Shape(TakeStep(m))
  {
    InvGivesShape(m);
    hide Inv;
    StepKeepsInv(m, Consume);
    InvGivesShape(TakeStep(m));
  }

  function Given(d: Option<Delivery>): seq<Delivery> {
    if d.Some? then [d.value] else []
  }

  /** From the claim on: pop what is there, or fail and apply the skip rule. */
  lemma TakeAlone(m: Machine)
    requires Inv(m) && m.consumer == Taking(m.core.expected) && m.core.started
    ensures Shape(m)
    ensures var (core, handed) := m.core.AfterRound(m.capacity); RoundYields(m, core, Given(handed))
  {
    TakeStepsKeepInv(m);
    TakenRound(m);
    var (core, handed) := m.core.AfterRound(m.capacity);
    var n := TakeStep(m);
    assert ConsumerStep(m) == n && (n.consumer.Checking? ==> ConsumerStep(n) == TakeStep(n));
    assert n == m.(core := n.core, consumer := n.consumer);
    if n.consumer.PopFailed? {
      assert core == RoundCore(n.core, n.consumer) && Given(handed) == [];
      hide *;
      RoundAlone(n);
      var done :| RoundEnds(n, core, n.delivered, done);
      YieldsNothing(n, core, done);
      YieldsAfter(m, core, []);
    } else {
      var o := TakeStep(n);
      assert core == TakenCore(o) && Given(handed) == TakenOutcome(o);
      assert o == m.(core := o.core, consumer := o.consumer);
      hide *;
      TakenAlone(o);
      YieldsAfter(n, core, Given(handed));
      YieldsAfter(m, core, Given(handed));
    }
  }

  lemma LoadAlone(m: Machine)
    requires Inv(m) && m.consumer.LoadingExpected? && m.core.started
    ensures Shape(m)
    ensures var (core, handed) := m.core.AfterRound(m.capacity); RoundYields(m, core, Given(handed))
  {
    InvGivesShape(m);
    StepKeepsInv(m, Consume);
    var n := RoundStep(m);
    assert ConsumerStep(m) == n && n == m.(consumer := Taking(m.core.expected));
    var (core, handed) := m.core.AfterRound(m.capacity);
    hide *;
    TakeAlone(n);
    YieldsAfter(m, core, Given(handed));
  }

  lemma IdleAlone(m: Machine)
    requires Inv(m) && m.consumer.Idle? && !m.core.started
    ensures Shape(m)
    ensures var (core, handed) := m.core.AfterRound(m.capacity); RoundYields(m, core, Given(handed))
  {
    InvGivesShape(m);
    StepKeepsInv(m, Consume);
    var n := RoundStep(m);
    var (core, handed) := m.core.AfterRound(m.capacity);
    assert ConsumerStep(m) == n && n == m.(consumer := PopFailed);
    assert core == RoundCore(n.core, n.consumer) && Given(handed) == [];
    hide *;
    RoundAlone(n);
    var done :| RoundEnds(n, core, n.delivered, done);
    YieldsNothing(n, core, done);
    YieldsAfter(m, core, []);
  }

  /** An uninterrupted round of the consumer is the sequential round. */
  lemma ConsumeAlone(m: Machine)
    requires Inv(m) && m.consumer.Idle?
    ensures Shape(m)
    ensures var (core, handed) := m.core.AfterRound(m.capacity); RoundYields(m, core, Given(handed))
  {
    if !m.core.started {
      hide *;
      IdleAlone(m);
    } else {
      InvGivesShape(m);
      StepKeepsInv(m, Consume);
      var n := RoundStep(m);
      assert ConsumerStep(m) == n && n == m.(consumer := LoadingExpected);
      var (core, handed) := m.core.AfterRound(m.capacity);
      hide *;
      LoadAlone(n);
      YieldsAfter(m, core, Given(handed));
    }
  }
}
