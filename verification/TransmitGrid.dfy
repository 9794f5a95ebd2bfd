/** The deadlines and timestamps of the packets a bank sends (the transmit loop of
    Engine/LiveEngine.cpp). Times are nanoseconds. */
module TransmitGrid {
  import opened Common

  const SECOND: int := 1_000_000_000
  const MILLISECOND: int := 1_000_000
  const RATE: int := 48_000
  const LATE: int := 10 * MILLISECOND
  const SHORTEST_PAUSE: int := 250 * MILLISECOND

  // ----- Timestamps -----

  /** `rtpTimestampForNanoseconds`: whole seconds and the remainder apart. */
  function Samples(nanoseconds: i64): nat {
    var ns := if nanoseconds < 0 then 0 else nanoseconds;
    ns / SECOND * RATE + ns % SECOND * RATE / SECOND
  }

  function Timestamp(nanoseconds: i64): u32 {
    Samples(nanoseconds) % TWO32
  }

  /** The two-part form is the exact number of samples, and nothing overflows 64 bits. */
  lemma TimestampIsExact(ns: i64)
    ensures var t := if ns < 0 then 0 else ns;
            Samples(ns) == t * RATE / SECOND && Samples(ns) < TWO64 && t % SECOND * RATE < TWO64
  {
  }

  /** A millisecond later is 48 samples later. */
  lemma TimestampAdvances(ns: i64, ms: nat)
    requires ns >= 0 && ns + ms * MILLISECOND < TWO63
    ensures Timestamp(ns + ms * MILLISECOND) == (Timestamp(ns) + 48 * ms) % TWO32
  {
    TimestampIsExact(ns);
    TimestampIsExact(ns + ms * MILLISECOND);
    assert (ns + ms * MILLISECOND) * RATE == ns * RATE + 48 * ms * SECOND;
    assert (ns * RATE + 48 * ms * SECOND) / SECOND == ns * RATE / SECOND + 48 * ms;
    hide Samples;
    WrapOnce(Samples(ns), 48 * ms);
  }

  lemma WrapOnce(a: nat, b: nat)
    ensures (a % TWO32 + b) % TWO32 == (a + b) % TWO32
  {
  }

  // ----- Deadlines -----

  /** `nextDeadline`: the epoch, or the next whole millisecond after it. */
  function NextDeadline(epoch: int, now: int): int {
    if now < epoch then epoch else epoch + ((now - epoch) / MILLISECOND + 1) * MILLISECOND
  }

  predicate OnGrid(epoch: int, deadline: int) {
    deadline >= epoch && (deadline - epoch) % MILLISECOND == 0
  }

  lemma NextIsOnGrid(epoch: int, now: int)
    ensures OnGrid(epoch, NextDeadline(epoch, now))
    ensures now < NextDeadline(epoch, now)
    ensures now >= epoch ==> NextDeadline(epoch, now) <= now + MILLISECOND
  {
  }

  lemma NextStaysOnGrid(epoch: int, deadline: int)
    ensures OnGrid(epoch, deadline) ==> OnGrid(epoch, deadline + MILLISECOND)
  {
  }

  /** The first grid point after a reading of the clock: the epoch before it, and the next
      whole millisecond from then on. */
  predicate IsFirstAfter(epoch: int, clock: int, deadline: int) {
    OnGrid(epoch, deadline) && if clock < epoch then deadline == epoch else clock < deadline <= clock + 1_000_000
  }

  lemma NextIsFirstAfter(epoch: int, clock: int)
    ensures forall d :: IsFirstAfter(epoch, clock, d) <==> d == NextDeadline(epoch, clock)
  {
    NextIsOnGrid(epoch, clock);
    forall d | IsFirstAfter(epoch, clock, d)
      ensures d == NextDeadline(epoch, clock)
    {
      OneInEveryMillisecond(epoch, d, NextDeadline(epoch, clock));
    }
    hide OnGrid;
  }

  lemma OneInEveryMillisecond(epoch: int, d: int, e: int)
    requires OnGrid(epoch, d) && OnGrid(epoch, e) && -MILLISECOND < d - e < MILLISECOND
    ensures d == e
  {
  }

  /** What the world adds to one turn: how late the sleep returns, the time between two
      looks at the clock, whether the packet is sent, and the time to reconnect beyond the
      shortest pause. */
  datatype Turn = Turn(late: nat, between: nat, sent: bool, away: nat)

  /** A packet: its number, its deadline and the clock when it was made. */
  datatype Scheduled = Scheduled(sequence: u16, deadline: int, now: int)

  /** Packets are numbered from one, through failures and reconnects. */
  ghost predicate IsNumbered(packets: seq<Scheduled>) {
    forall i :: 0 <= i < |packets| ==> packets[i].sequence == (i + 1) % TWO16
  }

  ghost predicate IsGrid(epoch: int, packets: seq<Scheduled>) {
    && (forall i :: 0 <= i < |packets| ==>
          && OnGrid(epoch, packets[i].deadline)
          && packets[i].now - LATE <= packets[i].deadline <= packets[i].now + MILLISECOND)
    && forall i, j :: 0 <= i < j < |packets| ==> packets[i].deadline < packets[j].deadline
  }

  /** The packet of a turn that sleeps from `clock` to `planned`: its deadline is the planned
      one unless the turn wakes more than 10 ms late; then it is the first grid point after
      another look at the clock. */
  predicate Wakes(epoch: int, clock: int, planned: int, turn: Turn, p: Scheduled) {
    var woken := (if clock < planned then planned else clock) + turn.late;
    if woken - planned <= 10_000_000 then p.deadline == planned && p.now == woken
    else p.now == woken + turn.between && IsFirstAfter(epoch, p.now, p.deadline)
  }

  /** The plan after a packet: one millisecond on when it was sent, and otherwise the first
      grid point once 250 ms or more have passed. */
  predicate Continues(epoch: int, p: Scheduled, turn: Turn, clock: int, planned: int) {
    if turn.sent then clock == p.now && planned == p.deadline + 1_000_000
    else clock == p.now + 250_000_000 + turn.away && IsFirstAfter(epoch, clock, planned)
  }

  ghost predicate FollowsOn(epoch: int, p: Scheduled, turn: Turn, next: Turn, q: Scheduled) {
    exists clock, planned :: Continues(epoch, p, turn, clock, planned) && Wakes(epoch, clock, planned, next, q)
  }

  ghost predicate StartsOff(epoch: int, start: int, turn: Turn, p: Scheduled) {
    exists planned :: IsFirstAfter(epoch, start, planned) && Wakes(epoch, start, planned, turn, p)
  }

  /** Every packet follows from the one before, the turns and the clock. */
  ghost predicate IsPlan(epoch: int, start: int, turns: seq<Turn>, packets: seq<Scheduled>) {
    && |packets| <= |turns|
    && (packets != [] ==> StartsOff(epoch, start, turns[0], packets[0]))
    && forall i :: 0 < i < |packets| ==> FollowsOn(epoch, packets[i - 1], turns[i - 1], turns[i], packets[i])
  }

  /** What the loop carries from one turn to the next. */
  ghost predicate Planned(epoch: int, start: int, turns: seq<Turn>, packets: seq<Scheduled>, clock: int, planned: int)
    requires |packets| <= |turns|
  {
    if packets == [] then clock == start && IsFirstAfter(epoch, start, planned)
    else Continues(epoch, packets[|packets| - 1], turns[|packets| - 1], clock, planned)
  }

  lemma PlanGrows(epoch: int, start: int, turns: seq<Turn>, packets: seq<Scheduled>, clock: int, planned: int, p: Scheduled)
    requires |packets| < |turns| && IsPlan(epoch, start, turns, packets)
    requires Planned(epoch, start, turns, packets, clock, planned) && Wakes(epoch, clock, planned, turns[|packets|], p)
    ensures IsPlan(epoch, start, turns, packets + [p])
  {
    hide IsFirstAfter, Wakes, Continues;
    var n := |packets|;
    if n > 0 {
      assert FollowsOn(epoch, packets[n - 1], turns[n - 1], turns[n], p);
    } else {
      assert StartsOff(epoch, start, turns[0], p);
    }
    assert forall i :: 0 <= i < n ==> (packets + [p])[i] == packets[i];
  }

  lemma GridGrows(epoch: int, packets: seq<Scheduled>, planned: int, p: Scheduled)
    requires IsGrid(epoch, packets) && (packets != [] ==> packets[|packets| - 1].deadline < planned)
    requires OnGrid(epoch, p.deadline) && planned <= p.deadline && p.now - LATE <= p.deadline <= p.now + MILLISECOND
    ensures IsGrid(epoch, packets + [p])
  {
    hide OnGrid;
  }

  lemma WakesOnGrid(epoch: int, clock: int, planned: int, turn: Turn, p: Scheduled)
    requires Wakes(epoch, clock, planned, turn, p) && OnGrid(epoch, planned)
    ensures OnGrid(epoch, p.deadline) && planned <= p.deadline && p.now - LATE <= p.deadline <= p.now + MILLISECOND
  {
    assert planned >= epoch;
    hide OnGrid;
  }

  /** The transmit loop of one bank through lateness, catch-up and reconnects: every
      deadline is a whole millisecond after the epoch, each later than the one before, none
      more than 10 ms overdue or 1 ms early when its packet is made, and each follows from
      the one before. */
  method TransmitLoop(epoch: int, start: int, turns: seq<Turn>) returns (packets: seq<Scheduled>)
    ensures |packets| == |turns|
    ensures IsGrid(epoch, packets) && IsPlan(epoch, start, turns, packets) && IsNumbered(packets)
  {
    hide NextDeadline, OnGrid, IsGrid, IsPlan, Planned, Wakes, Continues;
    var now := start;
    var next := NextDeadline(epoch, now);
    NextIsOnGrid(epoch, now);
    packets := [];
    var sequence: u16 := 0;
    NothingPlanned(epoch, start, turns, next);
    for i := 0 to |turns|
      invariant |packets| == i && OnGrid(epoch, next)
      invariant IsNumbered(packets) && sequence == i % TWO16
      invariant packets != [] ==> packets[i - 1].deadline < next
      invariant IsGrid(epoch, packets) && IsPlan(epoch, start, turns, packets)
      invariant Planned(epoch, start, turns, packets, now, next)
    {
      var turn := turns[i];
      ghost var clock, planned := now, next;
      now := (if now < next then next else now) + turn.late;
      if now - next > LATE {
        now := now + turn.between;
        next := NextDeadline(epoch, now);
      }
      sequence := Next16(sequence);
      var packet := Scheduled(sequence, next, now);
      Woken(epoch, clock, planned, turn, packet);
      WakesOnGrid(epoch, clock, planned, turn, packet);
      GridGrows(epoch, packets, planned, packet);
      PlanGrows(epoch, start, turns, packets, clock, planned, packet);
      packets := packets + [packet];
      if turn.sent {
        NextStaysOnGrid(epoch, next);
        next := next + MILLISECOND;
      } else {
        now := now + SHORTEST_PAUSE + turn.away;
        next := NextDeadline(epoch, now);
        NextIsOnGrid(epoch, now);
      }
      Continued(epoch, start, turns, packets, now, next);
    }
  }

  lemma NothingPlanned(epoch: int, start: int, turns: seq<Turn>, planned: int)
    requires planned == NextDeadline(epoch, start)
    ensures IsGrid(epoch, []) && IsPlan(epoch, start, turns, []) && Planned(epoch, start, turns, [], start, planned)
  {
    NextIsFirstAfter(epoch, start);
  }

  lemma Woken(epoch: int, clock: int, planned: int, turn: Turn, p: Scheduled)
    requires var woken := (if clock < planned then planned else clock) + turn.late;
             if woken - planned > LATE then p.now == woken + turn.between && p.deadline == NextDeadline(epoch, p.now)
             else p.deadline == planned && p.now == woken
    ensures Wakes(epoch, clock, planned, turn, p)
  {
    NextIsFirstAfter(epoch, p.now);
    hide IsFirstAfter, NextDeadline;
  }

  lemma Continued(epoch: int, start: int, turns: seq<Turn>, packets: seq<Scheduled>, clock: int, planned: int)
    requires packets != [] && |packets| <= |turns|
    requires var p, turn := packets[|packets| - 1], turns[|packets| - 1];
             if turn.sent then clock == p.now && planned == p.deadline + MILLISECOND
             else clock == p.now + SHORTEST_PAUSE + turn.away && planned == NextDeadline(epoch, clock)
    ensures Planned(epoch, start, turns, packets, clock, planned)
  {
    NextIsFirstAfter(epoch, clock);
    hide IsFirstAfter, NextDeadline;
  }

  /** Turns `i` to `j` all send and wake in time. */
  predicate InTime(turns: seq<Turn>, packets: seq<Scheduled>, i: nat, j: nat)
    requires i <= j < |packets| <= |turns|
  {
    forall k :: i <= k < j ==>
      turns[k].sent && Later(packets[k].now, packets[k].deadline + 1_000_000) + turns[k + 1].late - packets[k].deadline <= 11_000_000
  }

  function Later(a: int, b: int): int {
    if a < b then b else a
  }

  /** Such turns skip no millisecond: their deadlines are one apart. */
  lemma {:induction false} NoMillisecondSkipped(epoch: int, start: int, turns: seq<Turn>, packets: seq<Scheduled>, i: nat, j: nat)
    requires IsPlan(epoch, start, turns, packets) && i <= j < |packets| && InTime(turns, packets, i, j)
    ensures packets[j].deadline == packets[i].deadline + (j - i) * 1_000_000
    decreases j
  {
    if i < j {
      NoMillisecondSkipped(epoch, start, turns, packets, i, j - 1);
      assert FollowsOn(epoch, packets[j - 1], turns[j - 1], turns[j], packets[j]);
      assert turns[j - 1].sent;
      hide IsFirstAfter;
    }
  }

  /** After a late turn, and after a reconnect that ends in time, the deadline is the first
      grid point after the clock: nothing is sent twice and no more is left out than has
      passed. */
  lemma CatchesUp(epoch: int, start: int, turns: seq<Turn>, packets: seq<Scheduled>, i: nat)
    requires IsPlan(epoch, start, turns, packets) && 0 < i < |packets|
    ensures var p, q := packets[i - 1], packets[i];
            && (turns[i - 1].sent && Later(p.now, p.deadline + 1_000_000) + turns[i].late - p.deadline > 11_000_000 ==>
                  IsFirstAfter(epoch, q.now, q.deadline))
            && (!turns[i - 1].sent && turns[i].late <= 10_000_000 ==>
                  IsFirstAfter(epoch, p.now + 250_000_000 + turns[i - 1].away, q.deadline))
  {
    assert FollowsOn(epoch, packets[i - 1], turns[i - 1], turns[i], packets[i]);
    hide OnGrid;
  }

  /** The timestamp of a packet: its deadline on the system clock, corrected by the offset
      of the clock client. */
  function PacketTimestamp(systemEpoch: int, epoch: int, deadline: int, offset: int): u32
    requires -TWO63 <= systemEpoch + (deadline - epoch) - offset < TWO63
  {
    Timestamp(systemEpoch + (deadline - epoch) - offset)
  }

  /** A packet is made while its timestamp has a value. */
  predicate Stampable(systemEpoch: int, epoch: int, offset: int, p: Scheduled) {
    systemEpoch + (p.deadline - epoch) - offset < TWO63
  }

  /** Packets `i` and `j` of two banks whose loops share the epoch, however late or
      interrupted each was: their timestamps are as far apart as their deadlines, 48
      samples a millisecond, and within a day of each other they are equal only when the
      deadlines are. */
  lemma BanksAgree(systemEpoch: int, epoch: int, offset: int, a: seq<Scheduled>, b: seq<Scheduled>, i: nat, j: nat)
    requires IsGrid(epoch, a) && IsGrid(epoch, b) && i < |a| && j < |b| && a[i].deadline <= b[j].deadline
    requires 0 <= systemEpoch - offset
    requires Stampable(systemEpoch, epoch, offset, a[i]) && Stampable(systemEpoch, epoch, offset, b[j])
    ensures var p, q := a[i].deadline, b[j].deadline;
            var stampP, stampQ := PacketTimestamp(systemEpoch, epoch, p, offset), PacketTimestamp(systemEpoch, epoch, q, offset);
            && stampQ == (stampP + 48 * ((q - p) / MILLISECOND)) % TWO32
            && (q - p <= 86_400 * SECOND ==> (stampP == stampQ <==> p == q))
  {
    var p, q := a[i].deadline, b[j].deadline;
    var ms := (q - p) / MILLISECOND;
    assert OnGrid(epoch, p) && OnGrid(epoch, q);
    hide IsGrid;
    GridDistance(epoch, p, q);
    hide Timestamp, OnGrid;
    TimestampAdvances(systemEpoch + (p - epoch) - offset, ms);
    var stamp := PacketTimestamp(systemEpoch, epoch, p, offset);
    hide PacketTimestamp;
    if q - p <= 86_400 * SECOND {
      SameStamp(stamp, ms);
    }
    assert ms == 0 <==> p == q;
  }

  /** Less than 2^32 samples later the timestamp is another one. */
  lemma SameStamp(stamp: u32, ms: nat)
    requires ms <= 86_400_000
    ensures stamp == (stamp + 48 * ms) % TWO32 <==> ms == 0
  {
  }

  lemma GridDistance(epoch: int, p: int, q: int)
    requires OnGrid(epoch, p) && OnGrid(epoch, q)
    ensures q == p + (q - p) / MILLISECOND * MILLISECOND
  {
  }

  /** The sign of the offset: an engine whose system clock is `offset` ahead of the master
      stamps its packets with the samples of the master's clock, so engines with different
      clocks that follow one master agree. */
  lemma StampsMasterTime(masterEpoch: int, epoch: int, deadline: int, offset: int)
    requires 0 <= masterEpoch + (deadline - epoch) < TWO63
    ensures PacketTimestamp(masterEpoch + offset, epoch, deadline, offset)
            == (masterEpoch + (deadline - epoch)) * 48_000 / 1_000_000_000 % TWO32
  {
    TimestampIsExact(masterEpoch + (deadline - epoch));
    hide Samples;
  }
}
