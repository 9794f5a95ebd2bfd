/** `push` and `pop` of Core/JitterBuffer.hpp as two threads of atomic steps over one
    shared buffer, with the consumer's pop-or-skip round of Engine/LiveEngine.cpp.

    Every atomic access and every byte copied is one step. Weak memory ordering is not
    modelled: steps are sequentially consistent. The fields after `consumer` are
    history: they record what happened since the last reset and no step reads them. */
module JitterProtocol {
  import opened Common
  import opened JitterBuffers

  /** `ssrc` and `socket` only identify the packet; the buffer never looks at them. */
  datatype Packet = Packet(sequence: u16, payload: seq<u8>, ssrc: u32, socket: nat)

  /** Where the producer is inside `push`, named after the access it performs next. */
  datatype Producer =
    | Resting
    | Dropping(packet: Packet)
    | Claiming(packet: Packet)
    | StoringSequence(packet: Packet)
    | StoringLength(packet: Packet)
    | Copying(packet: Packet, copied: nat)
    | Counting(packet: Packet)
    | LoadingStarted(packet: Packet)
    | Electing(packet: Packet)
    | StoringFirst(packet: Packet)
    | Comparing(packet: Packet)
    | LoadingFirst(packet: Packet)
    | StoringExpected(packet: Packet, value: u16)
    | Starting(packet: Packet)
    | Returning(packet: Packet, accepted: bool)

  /** Where the consumer is inside one round of `pop`, then `skipMissing` if due. */
  datatype Consumer =
    | Idle
    | LoadingExpected
    | Taking(sequence: u16)
    | Checking(sequence: u16)
    | Fetching(sequence: u16, out: seq<u8>)
    | Uncounting(sequence: u16)
    | Advancing(sequence: u16)
    | Discarding(sequence: u16)
    | UncountingStale
    | PopFailed
    | LoadingBuffered
    | LoadingStartedAgain
    | SkipLoading
    | SkipStoring(value: u16)
    | SkipCounting

  datatype Fate = Stored | Handed | Thrown

  /** `position` counts how often `expected` had moved since the start. */
  datatype Sent = Sent(id: nat, position: nat, sequence: u16, payload: seq<u8>)

  datatype Machine = Machine(
    core: Core,
    capacity: nat,
    producer: Producer,
    consumer: Consumer,
    accepted: seq<Packet>,
    fates: seq<Fate>,
    tags: seq<nat>,
    delivered: seq<Sent>,
    discarded: seq<nat>,
    advanced: nat,
    skipped: nat)
  {
    function N(): nat { |core.slots| }

    function Put(i: nat, slot: Slot): Machine
      requires i < N()
    {
      this.(core := core.(slots := core.slots[i := slot]))
    }
  }

  predicate AtSlot(p: Producer) {
    p.Claiming? || Filling(p)
  }

  /** The producer's steps that touch the slot of its packet. */
  function SlotStep(m: Machine): Machine
    requires Shape(m) && AtSlot(m.producer)
  {
    var p := m.producer.packet;
    var i := m.core.Home(p.sequence);
    var slot := m.core.slots[i];
    match m.producer
    case Claiming(_) =>
      if slot.state.Empty? then m.Put(i, slot.(state := Writing)).(producer := StoringSequence(p))
      else m.(producer := Dropping(p))
    case StoringSequence(_) => m.Put(i, slot.(sequence := p.sequence)).(producer := StoringLength(p))
    case StoringLength(_) => m.Put(i, slot.(length := |p.payload|)).(producer := Copying(p, 0))
    case Copying(_, k) =>
      if k < |p.payload| then
        m.Put(i, slot.(payload := slot.payload[k := p.payload[k]])).(producer := Copying(p, k + 1))
      else
        m.Put(i, slot.(state := Ready)).(producer := Counting(p), accepted := m.accepted + [p],
                                         fates := m.fates + [Stored], tags := m.tags[i := |m.accepted|])
  }

  /** The producer's steps on the counters and on the start rule. */
  function CounterMove(c: Core, at: Producer): (Core, Producer)
    requires !AtSlot(at)
  {
    match at
    case Resting => (c, Resting)
    case Dropping(p) => (c.(dropped := Inc64(c.dropped)), Returning(p, false))
    case Counting(p) => (c.(buffered := Inc64(c.buffered)), LoadingStarted(p))
    case LoadingStarted(p) => (c, if c.started then Returning(p, true) else Electing(p))
    case Electing(p) => if c.hasFirst then (c, Comparing(p)) else (c.(hasFirst := true), StoringFirst(p))
    case StoringFirst(p) => (c.(first := p.sequence), Comparing(p))
    case Comparing(p) => (c, if c.buffered >= c.target then LoadingFirst(p) else Returning(p, true))
    case LoadingFirst(p) => (c, StoringExpected(p, c.first))
    case StoringExpected(p, v) => (c.(expected := v), Starting(p))
    case Starting(p) => (c.(started := true), Returning(p, true))
    case Returning(p, _) => (c, Resting)
  }

  function CounterStep(m: Machine): Machine
    requires !AtSlot(m.producer)
  {
    var (core, at) := CounterMove(m.core, m.producer);
    m.(core := core, producer := at)
  }

  function ProducerStep(m: Machine): Machine
    requires Shape(m)
  {
    if AtSlot(m.producer) then SlotStep(m) else CounterStep(m)
  }

  predicate InSlot(c: Consumer) {
    c.Taking? || Holding(c)
  }

  /** The consumer's steps that touch the slot of the expected packet. */
  function TakeStep(m: Machine): Machine
    requires Shape(m) && InSlot(m.consumer)
  {
    var s := m.consumer.sequence;
    var i := m.core.Home(s);
    var slot := m.core.slots[i];
    match m.consumer
    case Taking(_) =>
      if slot.state.Ready? then m.Put(i, slot.(state := Reading)).(consumer := Checking(s))
      else m.(consumer := PopFailed)
    case Checking(_) =>
      m.(consumer := if slot.sequence != s || slot.length > m.capacity then Discarding(s) else Fetching(s, []))
    case Fetching(_, out) =>
      if |out| < slot.length then m.(consumer := Fetching(s, out + [slot.payload[|out|]]))
      else
        m.Put(i, slot.(state := Empty)).(consumer := Uncounting(s), fates := m.fates[m.tags[i] := Handed],
                                         delivered := m.delivered + [Sent(m.tags[i], m.advanced, s, out)])
    case Discarding(_) =>
      m.Put(i, slot.(state := Empty)).(consumer := UncountingStale, fates := m.fates[m.tags[i] := Thrown],
                                       discarded := m.discarded + [m.tags[i]])
  }

  /** The consumer's steps on the counters, the window and the skip rule. */
  function RoundMove(c: Core, at: Consumer): (Core, Consumer)
    requires !InSlot(at)
  {
    match at
    case Idle => (c, if c.started then LoadingExpected else PopFailed)
    case LoadingExpected => (c, Taking(c.expected))
    case Uncounting(s) => (c.(buffered := Dec64(c.buffered)), Advancing(s))
    case Advancing(s) => (c.(expected := Next16(s)), Idle)
    case UncountingStale => (c.(buffered := Dec64(c.buffered)), PopFailed)
    case PopFailed => (c, if c.started then LoadingBuffered else Idle)
    case LoadingBuffered => (c, if c.buffered > 0 then LoadingStartedAgain else Idle)
    case LoadingStartedAgain => (c, if c.started then SkipLoading else Idle)
    case SkipLoading => (c, SkipStoring(c.expected))
    case SkipStoring(v) => (c.(expected := Next16(v)), SkipCounting)
    case SkipCounting => (c.(lost := Inc64(c.lost)), Idle)
  }

  function RoundStep(m: Machine): Machine
    requires !InSlot(m.consumer)
  {
    var (core, at) := RoundMove(m.core, m.consumer);
    m.(core := core, consumer := at,
       advanced := m.advanced + (if m.consumer.Advancing? || m.consumer.SkipStoring? then 1 else 0),
       skipped := m.skipped + (if m.consumer.SkipCounting? then 1 else 0))
  }

  function ConsumerStep(m: Machine): Machine
    requires Shape(m)
  {
    if InSlot(m.consumer) then TakeStep(m) else RoundStep(m)
  }

  /** One scheduling decision: a packet arrives, either thread takes its next step, or
      the buffer is reset while both threads are between calls. */
  datatype Action = Offer(packet: Packet) | Produce | Consume | ResetIdle

  function Apply(m: Machine, a: Action): Machine
    requires Shape(m)
  {
    match a
    case Offer(p) =>
      if !m.producer.Resting? then m
      else m.(producer := if |p.payload| > m.core.maxPayload then Dropping(p) else Claiming(p))
    case Produce => ProducerStep(m)
    case Consume => ConsumerStep(m)
    case ResetIdle =>
      if m.producer.Resting? && m.consumer.Idle? then ResetNow(m) else m
  }

  /** The reset itself; the logs start over with it. */
  function ResetNow(m: Machine): Machine {
    m.(core := m.core.AfterReset(), accepted := [], fates := [], delivered := [], discarded := [],
       advanced := 0, skipped := 0)
  }

  // ----- What holds in every reachable state -----

  ghost predicate Shape(m: Machine) {
    && m.core.Valid()
    && |m.tags| == m.N()
    && |m.fates| == |m.accepted|
    && (m.producer.Resting? || m.producer.Dropping? || m.producer.Returning?
        || |m.producer.packet.payload| <= m.core.maxPayload)
    && (m.producer.Copying? ==> m.producer.copied <= |m.producer.packet.payload|)
    && (Holding(m.consumer) ==> m.tags[m.core.Home(m.consumer.sequence)] < |m.accepted|)
  }

  predicate Filling(p: Producer) {
    p.StoringSequence? || p.StoringLength? || p.Copying?
  }

  /** The packet is in a slot, but `push` has not returned. */
  predicate Placed(p: Producer) {
    p.Counting? || p.LoadingStarted? || p.Electing? || p.StoringFirst? || p.Comparing? || p.LoadingFirst?
    || p.StoringExpected? || p.Starting? || (p.Returning? && p.accepted)
  }

  predicate BeforeStart(p: Producer) {
    p.Electing? || p.StoringFirst? || p.Comparing? || p.LoadingFirst? || p.StoringExpected? || p.Starting?
  }

  predicate Holding(c: Consumer) {
    c.Checking? || c.Fetching? || c.Discarding?
  }

  /** A `writing` slot has exactly the producer as owner, a `reading` slot the consumer. */
  ghost predicate Ownership(m: Machine) {
    && (forall i | 0 <= i < m.N() ::
          m.core.slots[i].state.Writing? <==> Filling(m.producer) && m.core.Home(m.producer.packet.sequence) == i)
    && (forall i | 0 <= i < m.N() ::
          m.core.slots[i].state.Reading? <==> Holding(m.consumer) && m.core.Home(m.consumer.sequence) == i)
  }

  predicate Occupied(slot: Slot) {
    slot.state.Ready? || slot.state.Reading?
  }

  ghost predicate Keeps(m: Machine, i: nat)
    requires i < m.N() && |m.tags| == m.N() && |m.fates| == |m.accepted|
  {
    var slot := m.core.slots[i];
    Occupied(slot) ==>
      && m.tags[i] < |m.accepted|
      && m.fates[m.tags[i]].Stored?
      && var p := m.accepted[m.tags[i]];
      && p.sequence == slot.sequence
      && m.core.Home(p.sequence) == i
      && slot.length <= |slot.payload|
      && p.payload == slot.payload[..slot.length]
  }

  /** A ready or reading slot holds exactly one accepted packet, unaltered. */
  ghost predicate Contents(m: Machine)
    requires Shape(m)
  {
    forall i | 0 <= i < m.N() :: Keeps(m, i)
  }

  /** What either thread has copied so far. */
  ghost predicate Progress(m: Machine)
    requires Shape(m)
  {
    && (m.producer.StoringLength? || m.producer.Copying? ==>
          m.core.slots[m.core.Home(m.producer.packet.sequence)].sequence == m.producer.packet.sequence)
    && (m.producer.Copying? ==>
          var slot := m.core.slots[m.core.Home(m.producer.packet.sequence)];
          && slot.length == |m.producer.packet.payload|
          && slot.payload[..m.producer.copied] == m.producer.packet.payload[..m.producer.copied])
    && (m.consumer.Fetching? ==>
          var slot := m.core.slots[m.core.Home(m.consumer.sequence)];
          && slot.sequence == m.consumer.sequence
          && |m.consumer.out| <= slot.length <= m.capacity
          && m.consumer.out == slot.payload[..|m.consumer.out|])
  }

  ghost predicate Genuine(m: Machine, d: Sent) {
    && d.id < |m.accepted| && |m.fates| == |m.accepted|
    && m.fates[d.id].Handed?
    && m.accepted[d.id].sequence == d.sequence
    && m.accepted[d.id].payload == d.payload
  }

  ghost predicate Abandoned(m: Machine, id: nat) {
    id < |m.fates| && m.fates[id].Thrown?
  }

  ghost predicate StoredSomewhere(m: Machine, id: nat)
    requires Shape(m) && id < |m.accepted|
  {
    var i := m.core.Home(m.accepted[id].sequence);
    m.fates[id].Stored? ==> Occupied(m.core.slots[i]) && m.tags[i] == id
  }

  /** Every accepted packet is in exactly one place: a slot, the delivered log, or the
      discarded log; no log names a packet twice. */
  ghost predicate Accounting(m: Machine)
    requires Shape(m)
  {
    && (forall k | 0 <= k < |m.delivered| :: Genuine(m, m.delivered[k]))
    && (forall j, k | 0 <= j < k < |m.delivered| :: m.delivered[j].id != m.delivered[k].id)
    && (forall k | 0 <= k < |m.discarded| :: Abandoned(m, m.discarded[k]))
    && (forall j, k | 0 <= j < k < |m.discarded| :: m.discarded[j] != m.discarded[k])
    && (forall id | 0 <= id < |m.accepted| :: StoredSomewhere(m, id))
  }

  function CountReady(slots: seq<Slot>): nat {
    if slots == [] then 0 else CountReady(slots[..|slots| - 1]) + (if slots[|slots| - 1].state.Ready? then 1 else 0)
  }

  function Pending(p: Producer): nat {
    if p.Counting? then 1 else 0
  }

  function Held(c: Consumer): nat {
    if Holding(c) then 1 else 0
  }

  /** Taken out of `ready` but still counted in `buffered`. */
  function Taken(c: Consumer): nat {
    if Holding(c) || c.Uncounting? || c.UncountingStale? then 1 else 0
  }

  ghost predicate Counts(m: Machine) {
    && m.core.buffered == (CountReady(m.core.slots) + Taken(m.consumer) - Pending(m.producer)) % TWO64
    && |m.accepted| == |m.delivered| + |m.discarded| + CountReady(m.core.slots) + Held(m.consumer)
  }

  /** The packet just handed out has not moved `expected` yet. */
  function Unadvanced(c: Consumer): nat {
    if c.Uncounting? || c.Advancing? then 1 else 0
  }

  /** The window position `expected`: it moves once per delivery and once per skip. */
  ghost predicate Window(m: Machine) {
    && (BeforeStart(m.producer) ==> !m.core.started)
    && (!m.core.started ==> m.consumer.Idle? || m.consumer.PopFailed?)
    && (!m.core.started ==> m.delivered == [] && m.discarded == [] && m.advanced == m.skipped == 0)
    && (m.core.started || m.producer.Starting? ==> m.core.expected == (m.core.first + m.advanced) % TWO16)
    && (m.producer.StoringExpected? ==> m.producer.value == m.core.first)
    && (m.consumer.Taking? || Holding(m.consumer) || m.consumer.Uncounting? || m.consumer.Advancing? ==>
          m.consumer.sequence == m.core.expected)
    && (m.consumer.SkipStoring? ==> m.consumer.value == m.core.expected)
    && m.core.lost == m.skipped % TWO64
    && m.advanced + Unadvanced(m.consumer)
       == |m.delivered| + m.skipped + (if m.consumer.SkipCounting? then 1 else 0)
  }

  /** Deliveries come in increasing position, each with the sequence number of its position. */
  ghost predicate Ordered(m: Machine) {
    && (forall k | 0 <= k < |m.delivered| ::
          m.delivered[k].sequence == (m.core.first + m.delivered[k].position) % TWO16)
    && (forall j, k | 0 <= j < k < |m.delivered| :: m.delivered[j].position < m.delivered[k].position)
    && (forall k | 0 <= k < |m.delivered| :: m.delivered[k].position < m.advanced + Unadvanced(m.consumer))
  }

  /** `first` is the sequence of the first packet accepted since the reset. */
  ghost predicate FirstElected(m: Machine) {
    var known := if m.producer.Counting? || m.producer.LoadingStarted? || m.producer.Electing?
                 then |m.accepted| - 1 else |m.accepted|;
    && (Placed(m.producer) ==> |m.accepted| >= 1 && m.accepted[|m.accepted| - 1] == m.producer.packet)
    && (m.core.started ==> m.core.hasFirst)
    && (m.core.hasFirst <==> known >= 1)
    && (m.producer.StoringFirst? ==> |m.accepted| == 1)
    && (m.core.hasFirst && !m.producer.StoringFirst? ==> m.core.first == m.accepted[0].sequence)
    && (m.producer.Comparing? || m.producer.LoadingFirst? || m.producer.StoringExpected? || m.producer.Starting? ==>
          m.core.hasFirst)
  }

  ghost predicate Inv(m: Machine) {
    && Shape(m)
    && Ownership(m)
    && Contents(m)
    && Progress(m)
    && Accounting(m)
    && Counts(m)
    && Window(m)
    && Ordered(m)
    && FirstElected(m)
  }
}
