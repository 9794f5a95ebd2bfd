/** Draining on machines: what the consumer's own steps do to whatever a run left behind. */
module JitterDrain {
  import opened Common
  import opened Modular
  import opened JitterBuffers
  import opened JitterProtocol
  import opened JitterInvariant
  import opened JitterRuns
  import opened JitterCalls
  import opened JitterOrder

  /** The consumer's steps never start, stop or resize the buffer, nor move the producer. */
  ghost predicate SameOutside(m: Machine, n: Machine) {
    && n.producer == m.producer && n.capacity == m.capacity && n.core.started == m.core.started && n.N() == m.N()
    && n.core.maxPayload == m.core.maxPayload
  }

  lemma ConsumerStepsInside(m: Machine)
    requires Shape(m)
    ensures SameOutside(m, ConsumerStep(m))
  {
  }

  lemma {:induction false} ConsumerRunsInside(m: Machine, schedule: seq<Action>)
    requires Inv(m) && forall k | 0 <= k < |schedule| :: Belongs(Receiver, schedule[k])
    ensures SameOutside(m, Run(m, schedule))
    decreases |schedule|
  {
    if schedule == [] {
    } else {
      InvGivesShape(m);
      ConsumerStepsInside(m);
      StepKeepsInv(m, schedule[0]);
      var n := ConsumerStep(m);
      assert schedule[0] == Consume && Apply(m, schedule[0]) == n;
      hide Inv, Shape, Apply, ConsumerStep;
      ConsumerRunsInside(n, schedule[1..]);
    }
  }

  lemma ReachedInside(m: Machine, n: Machine)
    requires Reaches(Receiver, m, n)
    ensures SameOutside(m, n) && Inv(n)
  {
    hide Inv, SameOutside;
    ReachesKeepsInv(Receiver, m, n);
    var schedule :| Leads(Receiver, m, schedule, n);
    ConsumerRunsInside(m, schedule);
  }

  /** The consumer finishes what it is doing. */
  ghost predicate Finishes(m: Machine, n: Machine) {
    Reaches(Receiver, m, n) && n.consumer.Idle?
  }

  lemma YieldFinishes(m: Machine, core: Core, handed: seq<Delivery>)
    requires RoundYields(m, core, handed)
    ensures exists n :: Finishes(m, n) && n.core == core
  {
    hide Reaches;
    var n, delivered :| RoundEnds(m, core, delivered, n) && Outcome(delivered) == Outcome(m.delivered) + handed;
    assert Finishes(m, n);
  }

  lemma FinishAfter(m: Machine, n: Machine)
    requires Inv(m) && Shape(m) && Finishes(ConsumerStep(m), n)
    ensures Finishes(m, n)
  {
    hide Inv, Shape, Reaches;
    ReachesAfter(Receiver, m, Consume, n);
  }

  lemma OutsideSlotFinishes(m: Machine)
    requires Inv(m) && !InSlot(m.consumer) && !m.consumer.LoadingExpected?
    ensures exists n :: Finishes(m, n)
  {
    hide Inv, RoundCore, Reaches;
    RoundAlone(m);
    var n :| RoundEnds(m, RoundCore(m.core, m.consumer), m.delivered, n);
    assert Finishes(m, n);
  }

  lemma InvGivesWindow(m: Machine)
    requires Inv(m)
    ensures Shape(m) && Window(m)
  {
  }

  lemma TakenFinishes(m: Machine)
    requires Inv(m) && Shape(m) && (m.consumer.Fetching? || m.consumer.Discarding?)
    ensures exists n :: Finishes(m, n)
  {
    if m.consumer.Fetching? {
      FetchAlone(m);
      var released := Released(m);
      ReachesKeepsInv(Receiver, m, released);
      assert released.consumer.Uncounting?;
      hide Inv, Shape, Released, Reaches;
      OutsideSlotFinishes(released);
      var n :| Finishes(released, n);
      ReachesThen(Receiver, m, released, n);
      assert Finishes(m, n);
    } else {
      StepKeepsInv(m, Consume);
      var released := TakeStep(m);
      assert ConsumerStep(m) == released && released.consumer.UncountingStale?;
      hide Inv, Shape, TakeStep, ConsumerStep, Reaches;
      OutsideSlotFinishes(released);
      var n :| Finishes(released, n);
      FinishAfter(m, n);
    }
  }

  lemma CheckFinishes(m: Machine)
    requires Inv(m) && m.consumer.Checking?
    ensures exists n :: Finishes(m, n)
  {
    InvGivesShape(m);
    StepKeepsInv(m, Consume);
    var checked := TakeStep(m);
    InvGivesShape(checked);
    assert ConsumerStep(m) == checked && (checked.consumer.Fetching? || checked.consumer.Discarding?);
    hide *;
    TakenFinishes(checked);
    var n :| Finishes(checked, n);
    FinishAfter(m, n);
  }

  /** Wherever the consumer is in its round, its own steps bring it to the end of it. */
  lemma EveryRoundFinishes(m: Machine)
    requires Inv(m)
    ensures exists n :: Finishes(m, n)
  {
    InvGivesWindow(m);
    var (core, handed) := m.core.AfterRound(m.capacity);
    assert m.consumer.LoadingExpected? || m.consumer.Taking? ==> m.core.started;
    assert m.consumer.Taking? ==> m.consumer == Taking(m.core.expected);
    assert InSlot(m.consumer) ==> m.consumer.Taking? || m.consumer.Checking? || m.consumer.Fetching? || m.consumer.Discarding?;
    hide *;
    if m.consumer.LoadingExpected? {
      LoadAlone(m);
      YieldFinishes(m, core, Given(handed));
    } else if m.consumer.Taking? {
      TakeAlone(m);
      YieldFinishes(m, core, Given(handed));
    } else if m.consumer.Checking? {
      CheckFinishes(m);
    } else if m.consumer.Fetching? || m.consumer.Discarding? {
      TakenFinishes(m);
    } else {
      OutsideSlotFinishes(m);
    }
  }

  /** `rounds` uninterrupted rounds on a machine are `rounds` rounds of the buffer. */
  lemma {:induction false} RoundsAlone(m: Machine, rounds: nat)
    requires Inv(m) && m.consumer.Idle?
    ensures m.core.Valid()
    ensures exists n :: Finishes(m, n) && n.core == Rounds(m.core, m.capacity, rounds).0
    decreases rounds
  {
    hide *;
    CoreIsValid(m);
    if rounds == 0 {
      NowFinished(m);
      ZeroRounds(m.core, m.capacity);
    } else {
      var (core, handed) := m.core.AfterRound(m.capacity);
      RoundsStep(m.core, m.capacity, rounds);
      ConsumeAlone(m);
      YieldFinishes(m, core, Given(handed));
      var once :| Finishes(m, once) && once.core == core;
      FinishedFacts(m, once);
      RoundsAlone(once, rounds - 1);
      var n :| Finishes(once, n) && n.core == Rounds(once.core, once.capacity, rounds - 1).0;
      FinishThen(m, once, n);
    }
  }

  lemma CoreIsValid(m: Machine)
    requires Inv(m)
    ensures m.core.Valid()
  {
  }

  lemma NowFinished(m: Machine)
    requires Inv(m) && m.consumer.Idle?
    ensures Finishes(m, m)
  {
    hide Inv;
    ReachesItself(Receiver, m);
  }

  lemma ZeroRounds(c: Core, capacity: nat)
    requires c.Valid()
    ensures Rounds(c, capacity, 0).0 == c
  {
  }

  lemma FinishedFacts(m: Machine, n: Machine)
    requires Finishes(m, n)
    ensures Inv(n) && n.consumer.Idle? && Reaches(Receiver, m, n)
    ensures n.producer == m.producer && n.capacity == m.capacity && n.core.started == m.core.started && n.N() == m.N()
  {
    hide Inv, Reaches;
    ReachedInside(m, n);
  }

  lemma FinishThen(l: Machine, m: Machine, n: Machine)
    requires Finishes(l, m) && Finishes(m, n)
    ensures Finishes(l, n)
  {
    hide Reaches;
    ReachesThen(Receiver, l, m, n);
  }

  /** Nothing is left: no packet counted, no slot occupied. */
  ghost predicate IsEmpty(c: Core) {
    c.buffered == 0 && forall i | 0 <= i < |c.slots| :: c.slots[i].state.Empty?
  }

  /** From every reachable started machine whose producer rests, the consumer alone ends
      the round it is in and then empties the buffer in at most `SlotCount` rounds. */
  lemma ConsumerDrains(m: Machine)
    requires Inv(m) && m.producer.Resting? && m.core.started && Divides(m.N(), TWO16)
    ensures exists idle, n ::
              && Finishes(m, idle) && Finishes(idle, n) && idle.core.Valid()
              && n.core == Rounds(idle.core, m.capacity, m.N()).0 && IsEmpty(n.core)
  {
    hide *;
    EveryRoundFinishes(m);
    var idle :| Finishes(m, idle);
    FinishedFacts(m, idle);
    ReachableIsQuiet(idle);
    RoundsAlone(idle, m.N());
    var n :| Finishes(idle, n) && n.core == Rounds(idle.core, idle.capacity, m.N()).0;
    SlotsOf(idle);
    Drain(idle.core, idle.capacity);
    DrainedIsEmpty(n.core);
  }

  lemma SlotsOf(m: Machine)
    ensures m.N() == |m.core.slots|
  {
  }

  lemma DrainedIsEmpty(c: Core)
    requires c.buffered == 0 && forall i | 0 <= i < |c.slots| :: c.slots[i].state.Empty?
    ensures IsEmpty(c)
  {
  }
}
