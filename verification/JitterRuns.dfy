/** What the invariant says about whole runs. */
module JitterRuns {
  import opened Common
  import opened JitterProtocol
  import opened JitterInvariant

  /** A machine just constructed or just reset, with arbitrary bytes in its slots. */
  ghost predicate Fresh(m: Machine) {
    && m.core.Valid()
    && (forall i | 0 <= i < m.N() :: m.core.slots[i].state.Empty?)
    && m.core.buffered == m.core.lost == 0 && !m.core.hasFirst && !m.core.started
    && m.producer.Resting? && m.consumer.Idle?
    && |m.tags| == m.N()
    && m.accepted == [] && m.fates == [] && m.delivered == [] && m.discarded == []
    && m.advanced == m.skipped == 0
  }

  lemma FreshInv(m: Machine)
    requires Fresh(m)
    ensures Inv(m)
  {
    CountReadyNone(m.core.slots);
  }

  lemma InvGivesShape(m: Machine)
    requires Inv(m)
    ensures Shape(m)
  {
  }

  /** The state after a schedule; every schedule is allowed. */
  ghost function Run(m: Machine, actions: seq<Action>): (r: Machine)
    requires Inv(m)
    ensures Inv(r)
    decreases |actions|
  {
    hide *;
    InvGivesShape(m);
    if actions == [] then m
    else
      StepKeepsInv(m, actions[0]);
      Run(Apply(m, actions[0]), actions[1..])
  }

  lemma {:induction false} RunAppend(m: Machine, a: seq<Action>, b: seq<Action>)
    requires Inv(m)
    ensures Run(m, a + b) == Run(Run(m, a), b)
    decreases |a|
  {
    hide Inv, Shape, Apply;
    if a == [] {
      assert a + b == b;
    } else {
      InvGivesShape(m);
      StepKeepsInv(m, a[0]);
      assert (a + b)[1..] == a[1..] + b;
      RunAppend(Apply(m, a[0]), a[1..], b);
    }
  }

  /** Every delivery is one accepted packet, whole; none is delivered twice; positions,
      and with them sequence numbers across the 16-bit wrap, only increase. */
  lemma DeliveriesAreAcceptedPackets(start: Machine, actions: seq<Action>)
    requires Fresh(start)
    ensures Inv(start)
    ensures var r := Run(start, actions);
            && (forall k | 0 <= k < |r.delivered| ::
                  && r.delivered[k].id < |r.accepted|
                  && r.delivered[k].payload == r.accepted[r.delivered[k].id].payload
                  && r.delivered[k].sequence == r.accepted[r.delivered[k].id].sequence
                     == (r.core.first + r.delivered[k].position) % TWO16)
            && (forall j, k | 0 <= j < k < |r.delivered| ::
                  && r.delivered[j].id != r.delivered[k].id
                  && r.delivered[j].position < r.delivered[k].position)
  {
    hide *;
    FreshInv(start);
    LogsSay(Run(start, actions));
  }

  lemma LogsSay(m: Machine)
    requires Inv(m)
    ensures forall k | 0 <= k < |m.delivered| ::
              && m.delivered[k].id < |m.accepted|
              && m.delivered[k].payload == m.accepted[m.delivered[k].id].payload
              && m.delivered[k].sequence == m.accepted[m.delivered[k].id].sequence
                 == (m.core.first + m.delivered[k].position) % TWO16
    ensures forall j, k | 0 <= j < k < |m.delivered| ::
              m.delivered[j].id != m.delivered[k].id && m.delivered[j].position < m.delivered[k].position
  {
    hide Ownership, Contents, Progress, Counts, Window, FirstElected;
    forall k | 0 <= k < |m.delivered|
      ensures Genuine(m, m.delivered[k])
    {
    }
  }

  /** No packet vanishes and none is counted twice. */
  lemma Conservation(start: Machine, actions: seq<Action>)
    requires Fresh(start)
    ensures Inv(start)
    ensures var r := Run(start, actions);
            && r.core.buffered == (CountReady(r.core.slots) + Taken(r.consumer) - Pending(r.producer)) % TWO64
            && |r.accepted| == |r.delivered| + |r.discarded| + CountReady(r.core.slots) + Held(r.consumer)
  {
    hide *;
    FreshInv(start);
    CountsSay(Run(start, actions));
  }

  lemma CountsSay(m: Machine)
    requires Inv(m)
    ensures m.core.buffered == (CountReady(m.core.slots) + Taken(m.consumer) - Pending(m.producer)) % TWO64
    ensures |m.accepted| == |m.delivered| + |m.discarded| + CountReady(m.core.slots) + Held(m.consumer)
  {
    hide Shape, Ownership, Contents, Progress, Accounting, Window, Ordered, FirstElected;
  }

  /** Once started, the window has moved once for every delivery and every loss since the
      first accepted packet. */
  lemma WindowBalance(start: Machine, actions: seq<Action>)
    requires Fresh(start)
    ensures Inv(start)
    ensures var r := Run(start, actions);
            r.core.started ==>
              && |r.accepted| >= 1 && r.core.first == r.accepted[0].sequence
              && (r.consumer.Idle? ==>
                    (r.core.expected - r.core.first) % TWO16 == (|r.delivered| + r.core.lost) % TWO16)
  {
    FreshInv(start);
    hide Shape, Ownership, Contents, Progress, Accounting, Counts, Window, Ordered, FirstElected;
    var r := Run(start, actions);
    WindowSays(r);
  }

  lemma WindowSays(m: Machine)
    requires Window(m) && FirstElected(m)
    ensures m.core.started ==>
              && |m.accepted| >= 1 && m.core.first == m.accepted[0].sequence
              && (m.consumer.Idle? ==>
                    (m.core.expected - m.core.first) % TWO16 == (|m.delivered| + m.core.lost) % TWO16)
  {
    if m.core.started && m.consumer.Idle? {
      assert m.advanced == |m.delivered| + m.skipped;
      hide FirstElected;
      WindowArithmetic(m.core.first, |m.delivered|, m.skipped);
    }
  }

  lemma WindowArithmetic(first: nat, handed: nat, skipped: nat)
    ensures ((first + handed + skipped) % TWO16 - first) % TWO16 == (handed + skipped % TWO64) % TWO16
  {
  }

  lemma InvGivesOwnership(m: Machine)
    requires Inv(m)
    ensures Shape(m) && Ownership(m)
  {
  }

  /** The producer changes no slot the consumer owns or a packet is in. */
  lemma ProducerTouchesItsOwn(m: Machine, i: nat)
    requires Shape(m) && Ownership(m) && i < m.N()
    ensures m.core.slots[i].state.Reading? || m.core.slots[i].state.Ready? ==>
              ProducerStep(m).core.slots[i] == m.core.slots[i]
  {
  }

  /** The consumer changes no slot the producer owns, and no bytes at all. */
  lemma ConsumerTouchesItsOwn(m: Machine, i: nat)
    requires Shape(m) && Ownership(m) && i < m.N()
    ensures m.core.slots[i].state.Writing? ==> ConsumerStep(m).core.slots[i] == m.core.slots[i]
    ensures ConsumerStep(m).core.slots[i] == m.core.slots[i].(state := ConsumerStep(m).core.slots[i].state)
  {
  }

  /** A slot that one thread owns, or that holds a packet, keeps its bytes under every
      step of the other thread; only its owner moves it out of `writing` or `reading`. */
  lemma OnlyTheOwnerTouchesASlot(m: Machine, i: nat)
    requires Shape(m) && Ownership(m) && i < m.N()
    ensures m.core.slots[i].state.Reading? || m.core.slots[i].state.Ready? ==>
              ProducerStep(m).core.slots[i] == m.core.slots[i]
    ensures m.core.slots[i].state.Writing? ==> ConsumerStep(m).core.slots[i] == m.core.slots[i]
    ensures ConsumerStep(m).core.slots[i] == m.core.slots[i].(state := ConsumerStep(m).core.slots[i].state)
  {
    hide Ownership, ProducerStep, ConsumerStep;
    ProducerTouchesItsOwn(m, i);
    ConsumerTouchesItsOwn(m, i);
  }
}
