/** Every interleaving keeps the invariant of `JitterProtocol`. */
module JitterInvariant {
  import opened Common
  import opened JitterBuffers
  import opened JitterProtocol

  lemma {:induction false} CountReadyUpdate(slots: seq<Slot>, i: nat, slot: Slot)
    requires i < |slots|
    ensures CountReady(slots[i := slot])
            == CountReady(slots) - (if slots[i].state.Ready? then 1 else 0) + (if slot.state.Ready? then 1 else 0)
  {
    var updated := slots[i := slot];
    var last := |slots| - 1;
    if i < last {
      CountReadyUpdate(slots[..last], i, slot);
      assert updated[..last] == slots[..last][i := slot];
    } else {
      assert updated[..last] == slots[..last];
    }
  }

  lemma {:induction false} CountReadyNone(slots: seq<Slot>)
    requires forall i | 0 <= i < |slots| :: !slots[i].state.Ready?
    ensures CountReady(slots) == 0
  {
    if slots != [] {
      CountReadyNone(slots[..|slots| - 1]);
    }
  }

  /** Slots, their packets and the logs: everything but the counters. */
  ghost predicate StoreInv(m: Machine) {
    Shape(m) && Ownership(m) && Contents(m) && Progress(m) && Accounting(m)
  }

  /** Neither thread touched a slot, a log, or its own copying progress. */
  ghost predicate SameStore(m: Machine, n: Machine) {
    && n.core.slots == m.core.slots && n.core.maxPayload == m.core.maxPayload && n.core.target == m.core.target
    && n.capacity == m.capacity && n.tags == m.tags
    && n.accepted == m.accepted && n.fates == m.fates
    && n.delivered == m.delivered && n.discarded == m.discarded
    && (n.producer == m.producer || (!Filling(m.producer) && !Filling(n.producer)
                                     && (n.producer.Claiming? ==> |n.producer.packet.payload| <= m.core.maxPayload)))
    && (n.consumer == m.consumer || (!Holding(m.consumer) && !Holding(n.consumer)))
    && (Shape(m) ==> Shape(n))
  }

  /** Growing the accepted log and moving stored packets leaves the old log entries right. */
  lemma LogsKept(m: Machine, n: Machine)
    requires Shape(m) && Accounting(m)
    requires m.accepted <= n.accepted && |n.fates| == |n.accepted|
    requires forall id | 0 <= id < |m.fates| && !m.fates[id].Stored? :: n.fates[id] == m.fates[id]
    ensures forall k | 0 <= k < |m.delivered| :: Genuine(n, m.delivered[k])
    ensures forall k | 0 <= k < |m.discarded| :: Abandoned(n, m.discarded[k])
  {
  }

  lemma SameStoreKeepsStore(m: Machine, n: Machine)
    requires StoreInv(m) && SameStore(m, n)
    ensures StoreInv(n)
  {
    assert Ownership(n) && Progress(n);
    hide Ownership, Progress, Shape, Accounting, Contents;
    SameHoldingsKeepStore(m, n);
  }

  /** The same packets in the same slots; only states among `empty` and `writing`, or
      among `ready` and `reading`, and bytes nobody reads may differ. */
  ghost predicate SameHoldings(m: Machine, n: Machine) {
    && n.N() == m.N()
    && n.accepted == m.accepted && n.fates == m.fates && n.tags == m.tags
    && n.delivered == m.delivered && n.discarded == m.discarded
    && forall i: nat | i < m.N() :: SameHolding(m.core.slots[i], n.core.slots[i])
  }

  predicate SameHolding(before: Slot, after: Slot) {
    && (Occupied(before) <==> Occupied(after))
    && (Occupied(before) ==> after == before.(state := after.state))
  }

  lemma SameHoldingsKeepStore(m: Machine, n: Machine)
    requires Shape(m) && Contents(m) && Accounting(m) && Shape(n) && SameHoldings(m, n)
    ensures Contents(n) && Accounting(n)
  {
    assert m.N() > 0;
    hide Shape;
    forall i: nat | i < n.N()
      ensures Keeps(n, i)
    {
      assert Keeps(m, i) && SameHolding(m.core.slots[i], n.core.slots[i]);
    }
    LogsKept(m, n);
    forall id: nat | id < |n.accepted|
      ensures StoredSomewhere(n, id)
    {
      assert StoredSomewhere(m, id);
      assert SameHolding(m.core.slots[m.core.Home(m.accepted[id].sequence)], n.core.slots[m.core.Home(m.accepted[id].sequence)]);
    }
  }

  // ----- Steps of the producer that touch its slot -----

  lemma ClaimKeepsOwnership(m: Machine)
    requires Shape(m) && Ownership(m) && Progress(m) && m.producer.Claiming?
    ensures var n := SlotStep(m); Shape(n) && Ownership(n) && Progress(n)
  {
  }

  lemma ClaimKeepsStore(m: Machine)
    requires StoreInv(m) && m.producer.Claiming?
    ensures StoreInv(SlotStep(m))
  {
    ClaimKeepsOwnership(m);
    hide Ownership, Progress, Accounting, Contents;
    SameHoldingsKeepStore(m, SlotStep(m));
  }

  lemma FillKeepsOwnership(m: Machine)
    requires Shape(m) && Ownership(m) && Filling(m.producer)
    requires m.producer.Copying? ==> m.producer.copied < |m.producer.packet.payload|
    ensures var n := SlotStep(m); Shape(n) && Ownership(n)
  {
  }

  lemma FillKeepsProgress(m: Machine)
    requires Shape(m) && Ownership(m) && Progress(m) && Filling(m.producer)
    requires m.producer.Copying? ==> m.producer.copied < |m.producer.packet.payload|
    requires Shape(SlotStep(m))
    ensures Progress(SlotStep(m))
  {
  }

  lemma FillSameHoldings(m: Machine)
    requires Shape(m) && Ownership(m) && Filling(m.producer)
    requires m.producer.Copying? ==> m.producer.copied < |m.producer.packet.payload|
    ensures SameHoldings(m, SlotStep(m))
  {
  }

  lemma FillKeepsStore(m: Machine)
    requires StoreInv(m) && Filling(m.producer)
    requires m.producer.Copying? ==> m.producer.copied < |m.producer.packet.payload|
    ensures StoreInv(SlotStep(m))
  {
    FillKeepsOwnership(m);
    FillKeepsProgress(m);
    FillSameHoldings(m);
    hide Ownership, Progress, Accounting, Contents, SameHoldings, SlotStep;
    SameHoldingsKeepStore(m, SlotStep(m));
  }

  lemma PublishKeepsStore(m: Machine)
    requires StoreInv(m) && m.producer.Copying? && m.producer.copied == |m.producer.packet.payload|
    ensures StoreInv(SlotStep(m))
  {
    var n := SlotStep(m);
    assert Shape(n) && Ownership(n) && Progress(n);
    forall i | 0 <= i < n.N() ensures Keeps(n, i) { assert Keeps(m, i); }
    LogsKept(m, n);
    forall id | 0 <= id < |n.accepted|
      ensures StoredSomewhere(n, id)
    {
      if id < |m.accepted| {
        assert StoredSomewhere(m, id);
      }
    }
  }

  lemma ProducerKeepsStore(m: Machine)
    requires StoreInv(m)
    ensures StoreInv(ProducerStep(m))
  {
    if m.producer.Claiming? {
      ClaimKeepsStore(m);
    } else if Filling(m.producer) {
      if m.producer.Copying? && m.producer.copied == |m.producer.packet.payload| {
        PublishKeepsStore(m);
      } else {
        FillKeepsStore(m);
      }
    } else {
      SameStoreKeepsStore(m, ProducerStep(m));
    }
  }

  // ----- Steps of the consumer that touch its slot -----

  lemma TakeKeepsOwnership(m: Machine)
    requires Shape(m) && Ownership(m) && Progress(m) && Contents(m) && m.consumer.Taking?
    ensures var n := TakeStep(m); Shape(n) && Ownership(n) && Progress(n)
  {
    assert Keeps(m, m.core.Home(m.consumer.sequence));
  }

  lemma TakeKeepsStore(m: Machine)
    requires StoreInv(m) && m.consumer.Taking?
    ensures StoreInv(TakeStep(m))
  {
    TakeKeepsOwnership(m);
    hide Ownership, Progress, Accounting, Contents;
    SameHoldingsKeepStore(m, TakeStep(m));
  }

  /** Checking the header and copying a byte change nothing but the consumer's locals. */
  lemma InspectKeepsStore(m: Machine)
    requires StoreInv(m) && (m.consumer.Checking? || m.consumer.Fetching?)
    requires m.consumer.Fetching? ==> |m.consumer.out| < m.core.slots[m.core.Home(m.consumer.sequence)].length
    ensures StoreInv(TakeStep(m))
  {
    var n := TakeStep(m);
    assert Shape(n) && Ownership(n) && Progress(n);
    hide Ownership, Progress, Accounting, Contents;
    SameHoldingsKeepStore(m, n);
  }

  lemma FetchKeepsStore(m: Machine)
    requires StoreInv(m) && m.consumer.Fetching?
    requires |m.consumer.out| == m.core.slots[m.core.Home(m.consumer.sequence)].length
    ensures StoreInv(TakeStep(m))
  {
    var n := TakeStep(m);
    assert Keeps(m, m.core.Home(m.consumer.sequence));
    assert Shape(n) && Ownership(n) && Progress(n);
    forall i | 0 <= i < n.N() ensures Keeps(n, i) { assert Keeps(m, i); }
    LogsKept(m, n);
    forall j, k | 0 <= j < k < |n.delivered|
      ensures n.delivered[j].id != n.delivered[k].id
    {
      assert Genuine(m, m.delivered[j]);
    }
    forall id | 0 <= id < |n.accepted| ensures StoredSomewhere(n, id) { assert StoredSomewhere(m, id); }
  }

  lemma DiscardKeepsStore(m: Machine)
    requires StoreInv(m) && m.consumer.Discarding?
    ensures StoreInv(TakeStep(m))
  {
    var n := TakeStep(m);
    assert Keeps(m, m.core.Home(m.consumer.sequence));
    assert Shape(n) && Ownership(n) && Progress(n);
    forall i | 0 <= i < n.N() ensures Keeps(n, i) { assert Keeps(m, i); }
    LogsKept(m, n);
    forall j, k | 0 <= j < k < |n.discarded|
      ensures n.discarded[j] != n.discarded[k]
    {
      assert Abandoned(m, m.discarded[j]);
    }
    forall id | 0 <= id < |n.accepted| ensures StoredSomewhere(n, id) { assert StoredSomewhere(m, id); }
  }

  lemma ConsumerKeepsStore(m: Machine)
    requires StoreInv(m)
    ensures StoreInv(ConsumerStep(m))
  {
    if m.consumer.Taking? {
      TakeKeepsStore(m);
    } else if m.consumer.Fetching? && |m.consumer.out| == m.core.slots[m.core.Home(m.consumer.sequence)].length {
      FetchKeepsStore(m);
    } else if m.consumer.Checking? || m.consumer.Fetching? {
      InspectKeepsStore(m);
    } else if m.consumer.Discarding? {
      DiscardKeepsStore(m);
    } else {
      SameStoreKeepsStore(m, ConsumerStep(m));
    }
  }

  // ----- Counters and the window -----

  lemma SlotStepKeepsCounts(m: Machine, n: Machine, i: nat, slot: Slot)
    requires Shape(m) && Counts(m) && i < m.N() && n.core.slots == m.core.slots[i := slot]
    requires n.core.buffered == m.core.buffered
    requires |n.accepted| - |n.delivered| - |n.discarded| - Held(n.consumer)
             - (|m.accepted| - |m.delivered| - |m.discarded| - Held(m.consumer))
             == (if slot.state.Ready? then 1 else 0) - (if m.core.slots[i].state.Ready? then 1 else 0)
             == Pending(n.producer) - Taken(n.consumer) - Pending(m.producer) + Taken(m.consumer)
    ensures Counts(n)
  {
    CountReadyUpdate(m.core.slots, i, slot);
  }

  lemma SlotStepCounts(m: Machine)
    requires Shape(m) && Ownership(m) && Counts(m) && AtSlot(m.producer)
    ensures Counts(SlotStep(m))
  {
    var n := SlotStep(m);
    var i := m.core.Home(m.producer.packet.sequence);
    assert n.core.slots == m.core.slots[i := n.core.slots[i]];
    SlotStepKeepsCounts(m, n, i, n.core.slots[i]);
  }

  lemma CounterStepCounts(m: Machine)
    requires Counts(m) && !AtSlot(m.producer)
    ensures Counts(CounterStep(m))
  {
    var n := CounterStep(m);
    assert n.core.slots == m.core.slots && n.accepted == m.accepted && n.delivered == m.delivered
           && n.discarded == m.discarded && n.consumer == m.consumer;
    if m.producer.Counting? {
      CountsUp(m.core.buffered, CountReady(m.core.slots) + Taken(m.consumer));
      assert n.core.buffered == Inc64(m.core.buffered);
      hide Inc64;
    } else {
      assert n.core.buffered == m.core.buffered && Pending(n.producer) == 0;
    }
  }

  lemma CountsUp(buffered: u64, count: int)
    requires buffered == (count - 1) % TWO64
    ensures Inc64(buffered) == count % TWO64
  {
  }

  lemma CountsDown(buffered: u64, count: int)
    requires buffered == (count + 1) % TWO64
    ensures Dec64(buffered) == count % TWO64
  {
  }

  lemma TakeStepCounts(m: Machine)
    requires Shape(m) && Ownership(m) && Counts(m) && InSlot(m.consumer)
    ensures Counts(TakeStep(m))
  {
    var n := TakeStep(m);
    var i := m.core.Home(m.consumer.sequence);
    assert n.core.slots == m.core.slots[i := n.core.slots[i]];
    SlotStepKeepsCounts(m, n, i, n.core.slots[i]);
  }

  lemma RoundStepCounts(m: Machine)
    requires Counts(m) && !InSlot(m.consumer)
    ensures Counts(RoundStep(m))
  {
    var n := RoundStep(m);
    assert n.core.slots == m.core.slots && n.accepted == m.accepted && n.delivered == m.delivered
           && n.discarded == m.discarded && n.producer == m.producer;
    if m.consumer.Uncounting? || m.consumer.UncountingStale? {
      CountsDown(m.core.buffered, CountReady(m.core.slots) - Pending(m.producer));
      assert n.core.buffered == Dec64(m.core.buffered);
      hide Dec64;
    } else {
      assert n.core.buffered == m.core.buffered && Taken(n.consumer) == 0;
    }
  }

  /** The delivered log is what it was, and the window did not move back. */
  lemma OrderedStays(m: Machine, n: Machine)
    requires Ordered(m) && n.delivered == m.delivered && (m.delivered == [] || n.core.first == m.core.first)
    requires n.advanced + Unadvanced(n.consumer) >= m.advanced + Unadvanced(m.consumer)
    ensures Ordered(n)
  {
  }

  /** The producer's steps in its slot leave the counters and the consumer alone. */
  lemma SlotStepFrame(m: Machine)
    requires Shape(m) && AtSlot(m.producer)
    ensures var n := SlotStep(m);
            && n.core == m.core.(slots := n.core.slots) && n.consumer == m.consumer
            && n.delivered == m.delivered && n.discarded == m.discarded
            && n.advanced == m.advanced && n.skipped == m.skipped
            && !BeforeStart(n.producer)
  {
  }

  lemma SlotStepWindow(m: Machine)
    requires Shape(m) && Window(m) && AtSlot(m.producer)
    ensures Window(SlotStep(m))
  {
    SlotStepFrame(m);
    hide Shape, SlotStep;
  }

  lemma SlotStepOrdered(m: Machine)
    requires Shape(m) && Ordered(m) && AtSlot(m.producer)
    ensures Ordered(SlotStep(m))
  {
    SlotStepFrame(m);
    hide Shape, SlotStep, Ordered;
    OrderedStays(m, SlotStep(m));
  }

  lemma SlotStepFirst(m: Machine)
    requires Shape(m) && FirstElected(m) && AtSlot(m.producer)
    ensures FirstElected(SlotStep(m))
  {
  }

  lemma CounterStepWindow(m: Machine)
    requires Window(m) && FirstElected(m) && !AtSlot(m.producer)
    ensures Window(CounterStep(m)) && FirstElected(CounterStep(m))
  {
  }

  /** The producer moves `first` only before the start, when nothing has been delivered. */
  lemma CounterStepOrdered(m: Machine)
    requires Window(m) && Ordered(m) && !AtSlot(m.producer)
    ensures Ordered(CounterStep(m))
  {
    hide Ordered;
    OrderedStays(m, CounterStep(m));
  }

  lemma TakeStepWindow(m: Machine)
    requires Shape(m) && Window(m) && InSlot(m.consumer)
    ensures Window(TakeStep(m))
  {
  }

  lemma TakeStepFirst(m: Machine)
    requires Shape(m) && FirstElected(m) && InSlot(m.consumer)
    ensures FirstElected(TakeStep(m))
  {
  }

  lemma TakeStepOrdered(m: Machine)
    requires Shape(m) && Window(m) && Ordered(m) && InSlot(m.consumer)
    ensures Ordered(TakeStep(m))
  {
    var n := TakeStep(m);
    assert n.core.first == m.core.first && n.advanced == m.advanced && Unadvanced(m.consumer) == 0;
    if n.delivered == m.delivered {
      OrderedStays(m, n);
    } else {
      var d := n.delivered[|m.delivered|];
      assert n.delivered == m.delivered + [d] && d.position == m.advanced && Unadvanced(n.consumer) == 1;
      assert d.sequence == (m.core.first + m.advanced) % TWO16;
      hide Shape, Window, TakeStep;
      OrderedGrows(m, n, d);
    }
  }

  lemma OrderedGrows(m: Machine, n: Machine, d: Sent)
    requires Ordered(m) && n.delivered == m.delivered + [d] && n.core.first == m.core.first && n.advanced == m.advanced
    requires Unadvanced(m.consumer) == 0 && Unadvanced(n.consumer) == 1
    requires d.position == m.advanced && d.sequence == (m.core.first + m.advanced) % TWO16
    ensures Ordered(n)
  {
    forall k | 0 <= k < |n.delivered|
      ensures n.delivered[k] == if k < |m.delivered| then m.delivered[k] else d
    {
    }
  }

  lemma RoundStepWindow(m: Machine)
    requires Window(m) && !InSlot(m.consumer)
    ensures Window(RoundStep(m))
  {
  }

  lemma RoundStepFirst(m: Machine)
    requires FirstElected(m) && !InSlot(m.consumer)
    ensures FirstElected(RoundStep(m))
  {
  }

  lemma RoundStepOrdered(m: Machine)
    requires Ordered(m) && !InSlot(m.consumer)
    ensures Ordered(RoundStep(m))
  {
    hide Ordered;
    OrderedStays(m, RoundStep(m));
  }

  // ----- Whole runs -----

  /** A packet arriving changes nothing but where the producer stands. */
  lemma OfferKeepsCounters(m: Machine, p: Packet)
    requires Shape(m) && Counts(m) && Window(m) && FirstElected(m) && m.producer.Resting?
    ensures var n := Apply(m, Offer(p)); Counts(n) && Window(n) && FirstElected(n)
  {
  }

  lemma OfferKeepsOrdered(m: Machine, p: Packet)
    requires Shape(m) && Ordered(m)
    ensures Ordered(Apply(m, Offer(p)))
  {
    hide Ordered;
    OrderedStays(m, Apply(m, Offer(p)));
  }

  lemma OfferKeepsInv(m: Machine, p: Packet)
    requires Inv(m)
    ensures Inv(Apply(m, Offer(p)))
  {
    hide Ownership, Contents, Progress, Accounting, Counts, Window, Ordered, FirstElected;
    if m.producer.Resting? {
      OfferKeepsCounters(m, p);
      OfferKeepsOrdered(m, p);
      SameStoreKeepsStore(m, Apply(m, Offer(p)));
    }
  }

  lemma ResetKeepsStore(m: Machine)
    requires Shape(m) && m.producer.Resting? && m.consumer.Idle?
    ensures StoreInv(ResetNow(m))
  {
  }

  lemma ResetKeepsCounters(m: Machine)
    requires Shape(m) && m.producer.Resting? && m.consumer.Idle?
    ensures var n := ResetNow(m); Counts(n) && Window(n) && Ordered(n) && FirstElected(n)
  {
    CountReadyNone(Cleared(m.core.slots));
  }

  lemma ResetKeepsInv(m: Machine)
    requires Inv(m)
    ensures Inv(Apply(m, ResetIdle))
  {
    hide Shape, Ownership, Contents, Progress, Accounting, Counts, Window, Ordered, FirstElected, ResetNow;
    if m.producer.Resting? && m.consumer.Idle? {
      ResetKeepsStore(m);
      ResetKeepsCounters(m);
    }
  }

  lemma StepKeepsInv(m: Machine, a: Action)
    requires Inv(m)
    ensures Inv(Apply(m, a))
  {
    hide Shape, Ownership, Contents, Progress, Accounting, Counts, Window, Ordered, FirstElected;
    match a
    case Offer(p) =>
      OfferKeepsInv(m, p);
    case Produce =>
      ProducerKeepsStore(m);
      if AtSlot(m.producer) {
        SlotStepCounts(m);
        SlotStepWindow(m);
        SlotStepOrdered(m);
        SlotStepFirst(m);
      } else {
        CounterStepCounts(m);
        CounterStepWindow(m);
        CounterStepOrdered(m);
      }
    case Consume =>
      ConsumerKeepsStore(m);
      if InSlot(m.consumer) {
        TakeStepCounts(m);
        TakeStepWindow(m);
        TakeStepFirst(m);
        TakeStepOrdered(m);
      } else {
        RoundStepCounts(m);
        RoundStepWindow(m);
        RoundStepFirst(m);
        RoundStepOrdered(m);
      }
    case ResetIdle =>
      ResetKeepsInv(m);
  }
}
