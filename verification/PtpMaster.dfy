/** The choice of the master clock (Engine/PTPClient.cpp; a simplified form of section
    9.3.4 of IEEE 1588-2008). */
module PtpMaster {
  import opened Common
  import opened PtpClients
  import opened PtpCodec

  // ----- The order of ranks -----

  /** Ranks of equal length are strictly and totally ordered. */
  lemma {:induction false} RankTotal(a: seq<int>, b: seq<int>)
    requires |a| == |b|
    ensures !(RankBefore(a, b) && RankBefore(b, a))
    ensures RankBefore(a, b) || RankBefore(b, a) <==> a != b
  {
    if a != [] {
      assert a == [a[0]] + a[1..] && b == [b[0]] + b[1..];
      RankTotal(a[1..], b[1..]);
    }
  }

  lemma {:induction false} RankTransitive(a: seq<int>, b: seq<int>, c: seq<int>)
    requires |a| == |b| == |c|
    requires RankBefore(a, b) && RankBefore(b, c)
    ensures RankBefore(a, c)
  {
    if a[0] == b[0] == c[0] {
      RankTransitive(a[1..], b[1..], c[1..]);
    }
  }

  /** Two Announces tie only when they come from the same port of the same clock. */
  lemma TieMeansSameSource(m: Message, n: Message)
    requires WellFormed(m) && WellFormed(n)
    ensures !RankBefore(RankOf(m), RankOf(n)) && !RankBefore(RankOf(n), RankOf(m)) ==> m.source == n.source
  {
    RankTotal(RankOf(m), RankOf(n));
    SourceFromRank(m);
    SourceFromRank(n);
  }

  lemma SourceFromRank(m: Message)
    requires WellFormed(m)
    ensures |RankOf(m)| == RANK_LENGTH
    ensures m.source == PortIdentityOf(RankOf(m))
  {
    var r := RankOf(m);
    assert r[14..22] == m.source.clock;
  }

  function PortIdentityOf(rank: seq<int>): PortIdentity
    requires |rank| == RANK_LENGTH && 0 <= rank[22] < TWO16
    requires forall i :: 14 <= i < 22 ==> 0 <= rank[i] < TWO8
  {
    PortIdentity(seq(8, i requires 0 <= i < 8 => rank[14 + i]), rank[22])
  }

  // ----- A run of Announces -----

  datatype Heard = Heard(message: Message, now: int)

  ghost predicate Announces(heard: seq<Heard>) {
    forall i :: 0 <= i < |heard| ==> heard[i].message.kind.Announce? && WellFormed(heard[i].message)
  }

  /** Every source announces the same rank each time. */
  ghost predicate FixedRanks(heard: seq<Heard>) {
    forall i, j :: 0 <= i < |heard| && 0 <= j < |heard| && heard[i].message.source == heard[j].message.source ==>
      RankOf(heard[i].message) == RankOf(heard[j].message)
  }

  function Listen(s: State, heard: seq<Heard>, local: PortIdentity): (r: State)
    requires RanksFit(s) && forall i :: 0 <= i < |heard| ==> WellFormed(heard[i].message)
    ensures RanksFit(r)
  {
    if heard == [] then s
    else
      var n := |heard| - 1;
      var t := Listen(s, heard[..n], local);
      AfterMessage(t, heard[n].message, 0, heard[n].now, local)
  }

  /** The master never went three seconds without an Announce it accepted. */
  ghost predicate NoExpiry(s: State, heard: seq<Heard>, local: PortIdentity)
    requires RanksFit(s) && Announces(heard)
  {
    forall n :: 0 <= n < |heard| ==> !Expires(Listen(s, heard[..n], local), heard[n].now)
  }

  predicate Expires(s: State, now: int) {
    s.lastAnnounce != NEVER && now - s.lastAnnounce >= ANNOUNCE_TIMEOUT
  }

  /** The message of least rank. */
  ghost predicate IsBest(heard: seq<Heard>, k: int) {
    0 <= k < |heard| && forall i :: 0 <= i < |heard| ==> !Beats(heard[i].message, heard[k].message)
  }

  predicate Beats(m: Message, n: Message) {
    |RankOf(m)| == |RankOf(n)| && RankBefore(RankOf(m), RankOf(n))
  }

  lemma BeatsOrder(a: Message, b: Message, c: Message)
    requires WellFormed(a) && WellFormed(b) && WellFormed(c)
    ensures !Beats(a, a)
    ensures !Beats(b, a) && !Beats(c, b) ==> !Beats(c, a)
  {
    SourceFromRank(a);
    SourceFromRank(b);
    SourceFromRank(c);
    var x, y, z := RankOf(a), RankOf(b), RankOf(c);
    hide RankOf;
    RankTotal(x, y);
    RankTotal(y, z);
    RankTotal(x, z);
    RankTotal(x, x);
    if RankBefore(z, x) && RankBefore(x, y) {
      RankTransitive(z, x, y);
    }
  }

  lemma OneAnnounce(t: State, best: Message, last: Message, now: int, local: PortIdentity)
    requires WellFormed(best) && WellFormed(last) && last.kind.Announce? && RanksFit(t)
    requires t.master == Some(best.source) && t.masterRank == Some(RankOf(best)) && !Expires(t, now)
    requires last.source == best.source ==> RankOf(last) == RankOf(best)
    ensures var r := AfterMessage(t, last, 0, now, local);
            var chosen := if Beats(last, best) then last else best;
            r.master == Some(chosen.source) && r.masterRank == Some(RankOf(chosen))
  {
  }

  lemma ListenTo(s: State, heard: seq<Heard>, local: PortIdentity)
    requires RanksFit(s) && heard != [] && Announces(heard)
    ensures var n := |heard| - 1;
            Announces(heard[..n])
            && Listen(s, heard, local) == AfterMessage(Listen(s, heard[..n], local), heard[n].message, 0, heard[n].now, local)
  {
  }

  lemma NoExpiryBefore(s: State, heard: seq<Heard>, n: nat, local: PortIdentity)
    requires RanksFit(s) && n < |heard| && Announces(heard) && NoExpiry(s, heard, local)
    ensures Announces(heard[..n]) && NoExpiry(s, heard[..n], local)
    ensures !Expires(Listen(s, heard[..n], local), heard[n].now)
  {
    hide Listen, Expires;
    var before := heard[..n];
    forall i | 0 <= i < n
      ensures before[..i] == heard[..i] && before[i] == heard[i]
    {
    }
    forall i | 0 <= i < n
      ensures !Expires(Listen(s, before[..i], local), before[i].now)
    {
    }
  }

  lemma FirstAnnounce(s: State, first: Heard, local: PortIdentity)
    requires s.master.None? && s.masterRank.None? && first.message.kind.Announce? && WellFormed(first.message)
    ensures var r := AfterMessage(s, first.message, 0, first.now, local);
            r.master == Some(first.message.source) && r.masterRank == Some(RankOf(first.message))
  {
  }

  /** The master after a run of Announces without expiry is the best source heard,
      whatever the order they came in. */
  lemma {:induction false} MasterIsBest(s: State, heard: seq<Heard>, local: PortIdentity) returns (k: int)
    requires s.master.None? && s.masterRank.None? && heard != []
    requires Announces(heard) && FixedRanks(heard) && NoExpiry(s, heard, local)
    ensures IsBest(heard, k)
    ensures Listen(s, heard, local).master == Some(heard[k].message.source)
    ensures Listen(s, heard, local).masterRank == Some(RankOf(heard[k].message))
    decreases |heard|
  {
    var n := |heard| - 1;
    var last, before := heard[n].message, heard[..n];
    ListenTo(s, heard, local);
    NoExpiryBefore(s, heard, n, local);
    var t := Listen(s, before, local);
    BeatsOrder(last, last, last);
    if n == 0 {
      FirstAnnounce(s, heard[n], local);
      k := 0;
      hide AfterMessage;
    } else {
      assert FixedRanks(before) by {
        hide RankOf;
      }
      k := MasterIsBest(s, before, local);
      var best := heard[k].message;
      assert last.source == best.source ==> RankOf(last) == RankOf(best);
      OneAnnounce(t, best, last, heard[n].now, local);
      BestOfMore(heard, k);
      hide *;
      if Beats(last, best) {
        k := n;
      }
    }
  }

  lemma BestOfMore(heard: seq<Heard>, k: int)
    requires Announces(heard) && 0 <= k < |heard| - 1 && IsBest(heard[..|heard| - 1], k)
    ensures IsBest(heard, if Beats(heard[|heard| - 1].message, heard[k].message) then |heard| - 1 else k)
  {
    var n := |heard| - 1;
    var last, best := heard[n].message, heard[k].message;
    hide Beats;
    BeatsOrder(last, last, last);
    forall i | 0 <= i < n
      ensures !Beats(heard[i].message, best)
      ensures Beats(last, best) ==> !Beats(heard[i].message, last)
    {
      assert heard[..n][i] == heard[i];
      if Beats(last, best) {
        Asymmetric(heard[i].message, last, best);
      }
    }
  }

  /** Nothing that does not beat `best` beats what beats `best`. */
  lemma Asymmetric(x: Message, last: Message, best: Message)
    requires WellFormed(x) && WellFormed(last) && WellFormed(best)
    requires Beats(last, best) && !Beats(x, best)
    ensures !Beats(x, last)
  {
    SourceFromRank(x);
    SourceFromRank(last);
    SourceFromRank(best);
    if Beats(x, last) {
      RankTransitive(RankOf(x), RankOf(last), RankOf(best));
    }
  }

  ghost predicate SameMessages(a: seq<Heard>, b: seq<Heard>) {
    && (forall i :: 0 <= i < |a| ==> exists j :: 0 <= j < |b| && b[j].message == a[i].message)
    && (forall j :: 0 <= j < |b| ==> exists i :: 0 <= i < |a| && a[i].message == b[j].message)
  }

  /** The same Announces in another order, or more often, choose the same master. */
  lemma OrderDoesNotMatter(s: State, a: seq<Heard>, b: seq<Heard>, local: PortIdentity)
    requires s.master.None? && s.masterRank.None? && a != [] && b != []
    requires Announces(a) && FixedRanks(a) && NoExpiry(s, a, local)
    requires Announces(b) && FixedRanks(b) && NoExpiry(s, b, local)
    requires SameMessages(a, b)
    ensures Listen(s, a, local).master == Listen(s, b, local).master
  {
    hide *;
    var i := MasterIsBest(s, a, local);
    var j := MasterIsBest(s, b, local);
    BestIsUnique(a, b, i, j);
  }

  lemma BestIsUnique(a: seq<Heard>, b: seq<Heard>, i: int, j: int)
    requires Announces(a) && Announces(b) && SameMessages(a, b) && IsBest(a, i) && IsBest(b, j)
    ensures a[i].message.source == b[j].message.source
  {
    assert 0 <= i < |a| && 0 <= j < |b| && WellFormed(a[i].message) && WellFormed(b[j].message);
    hide *;
    NotBeaten(a, b, i, j);
    NotBeaten(b, a, j, i);
    NoneBeats(a[i].message, b[j].message);
  }

  /** What one list holds does not beat the best of the other. */
  lemma NotBeaten(a: seq<Heard>, b: seq<Heard>, i: int, best: int)
    requires SameMessages(a, b) || SameMessages(b, a)
    requires 0 <= i < |a| && IsBest(b, best)
    ensures !Beats(a[i].message, b[best].message)
  {
    hide Beats;
  }

  lemma NoneBeats(x: Message, y: Message)
    requires WellFormed(x) && WellFormed(y) && !Beats(x, y) && !Beats(y, x)
    ensures x.source == y.source
  {
    SourceFromRank(x);
    SourceFromRank(y);
    TieMeansSameSource(x, y);
  }

  /** A change of master without expiry strictly lowers the rank, and empties everything
      measured against the old one. */
  lemma ChangeLowersRank(s: State, m: Message, now: int)
    requires RanksFit(s) && WellFormed(m) && s.master.Some? && s.masterRank.Some? && !Expires(s, now)
    ensures var r := AfterAnnounce(s, m, now);
            r.master != s.master ==>
              && r.masterRank.Some? && RanksFit(r) && RankBefore(r.masterRank.value, s.masterRank.value)
              && r.master == Some(m.source) && !r.locked && r.stable == 0 && r.sync.None?
  {
  }

  // ----- The order in terms of the message fields -----

  /** `std::array` comparison: the first differing byte decides. */
  ghost predicate BytesBefore(a: seq<int>, b: seq<int>) {
    exists k :: 0 <= k < |a| && k < |b| && a[k] < b[k] && forall i :: 0 <= i < k ==> a[i] == b[i]
  }

  /** The quality of a clock, before its identity. */
  ghost predicate GradeBefore(g: Grandmaster, h: Grandmaster) {
    || g.priority1 < h.priority1
    || (g.priority1 == h.priority1 && g.clockClass < h.clockClass)
    || (g.priority1 == h.priority1 && g.clockClass == h.clockClass && g.clockAccuracy < h.clockAccuracy)
    || (g.priority1 == h.priority1 && g.clockClass == h.clockClass && g.clockAccuracy == h.clockAccuracy
        && g.offsetScaledLogVariance < h.offsetScaledLogVariance)
    || (g.priority1 == h.priority1 && g.clockClass == h.clockClass && g.clockAccuracy == h.clockAccuracy
        && g.offsetScaledLogVariance == h.offsetScaledLogVariance && g.priority2 < h.priority2)
  }

  predicate SameGrade(g: Grandmaster, h: Grandmaster) {
    g.(identity := h.identity, stepsRemoved := h.stepsRemoved) == h
  }

  /** Then the grandmaster's identity, the steps to it, and the sender itself. */
  ghost predicate Better(m: Message, n: Message) {
    var g, h := m.grandmaster, n.grandmaster;
    || GradeBefore(g, h)
    || (SameGrade(g, h)
        && (|| BytesBefore(g.identity, h.identity)
            || (g.identity == h.identity && g.stepsRemoved < h.stepsRemoved)
            || (g == h && BytesBefore(m.source.clock, n.source.clock))
            || (g == h && m.source.clock == n.source.clock && m.source.port < n.source.port)))
  }

  /** Ranks compare like their first differing parts. */
  lemma {:induction false} RankParts(a: seq<int>, b: seq<int>, c: seq<int>, d: seq<int>)
    requires |a| == |b| && |c| == |d|
    ensures RankBefore(a + c, b + d) <==> RankBefore(a, b) || (a == b && RankBefore(c, d))
  {
    if a == [] {
      assert a + c == c && b + d == d;
    } else {
      assert (a + c)[1..] == a[1..] + c && (b + d)[1..] == b[1..] + d;
      assert a == [a[0]] + a[1..] && b == [b[0]] + b[1..];
      RankParts(a[1..], b[1..], c, d);
    }
  }

  lemma {:induction false} RankIsBytes(a: seq<int>, b: seq<int>)
    requires |a| == |b|
    ensures RankBefore(a, b) <==> BytesBefore(a, b)
  {
    if a != [] {
      RankIsBytes(a[1..], b[1..]);
      if a[0] == b[0] && BytesBefore(a[1..], b[1..]) {
        var k :| 0 <= k < |a| - 1 && a[1..][k] < b[1..][k] && forall i :: 0 <= i < k ==> a[1..][i] == b[1..][i];
        assert a[k + 1] < b[k + 1] && forall i :: 0 < i < k + 1 ==> a[i] == a[1..][i - 1] && b[i] == b[1..][i - 1];
      }
      if k :| 0 <= k < |a| && a[k] < b[k] && forall i :: 0 <= i < k ==> a[i] == b[i] {
        if k > 0 {
          assert a[1..][k - 1] < b[1..][k - 1];
        }
      }
    }
  }

  lemma OneNumber(x: int, y: int)
    ensures RankBefore([x], [y]) <==> x < y
  {
    assert [x][1..] == [] && [y][1..] == [];
  }

  function GradeOf(g: Grandmaster): seq<int> {
    [g.priority1, g.clockClass, g.clockAccuracy, g.offsetScaledLogVariance, g.priority2]
  }

  lemma NextNumber(x: int, y: int, a: seq<int>, b: seq<int>)
    requires |a| == |b|
    ensures RankBefore([x] + a, [y] + b) <==> x < y || (x == y && RankBefore(a, b))
  {
    assert ([x] + a)[1..] == a && ([y] + b)[1..] == b;
  }

  lemma GradeIsFields(g: Grandmaster, h: Grandmaster)
    ensures RankBefore(GradeOf(g), GradeOf(h)) <==> GradeBefore(g, h)
    ensures GradeOf(g) == GradeOf(h) <==> SameGrade(g, h)
  {
    var g4, h4 := [g.offsetScaledLogVariance, g.priority2], [h.offsetScaledLogVariance, h.priority2];
    var g3, h3 := [g.clockAccuracy] + g4, [h.clockAccuracy] + h4;
    var g2, h2 := [g.clockClass] + g3, [h.clockClass] + h3;
    assert GradeOf(g) == [g.priority1] + g2 && GradeOf(h) == [h.priority1] + h2;
    NextNumber(g.priority1, h.priority1, g2, h2);
    NextNumber(g.clockClass, h.clockClass, g3, h3);
    NextNumber(g.clockAccuracy, h.clockAccuracy, g4, h4);
    assert g4 == [g.offsetScaledLogVariance] + [g.priority2] && h4 == [h.offsetScaledLogVariance] + [h.priority2];
    NextNumber(g.offsetScaledLogVariance, h.offsetScaledLogVariance, [g.priority2], [h.priority2]);
    OneNumber(g.priority2, h.priority2);
    hide RankBefore;
    if GradeOf(g) == GradeOf(h) {
      assert GradeOf(g)[0] == GradeOf(h)[0] && GradeOf(g)[1] == GradeOf(h)[1] && GradeOf(g)[2] == GradeOf(h)[2];
      assert GradeOf(g)[3] == GradeOf(h)[3] && GradeOf(g)[4] == GradeOf(h)[4];
    }
  }

  /** One Announce ranks before another exactly when its fields do, in this order:
      priority1, class, accuracy, variance, priority2, identity, steps, clock, port. */
  lemma RankIsFields(m: Message, n: Message)
    requires WellFormed(m) && WellFormed(n)
    ensures |RankOf(m)| == |RankOf(n)| && (RankBefore(RankOf(m), RankOf(n)) <==> Better(m, n))
  {
    var g, h := m.grandmaster, n.grandmaster;
    var portM, portN := [m.source.port], [n.source.port];
    var stepsM, stepsN := [g.stepsRemoved], [h.stepsRemoved];
    var senderM, senderN := m.source.clock + portM, n.source.clock + portN;
    var tailM, tailN := g.identity + (stepsM + senderM), h.identity + (stepsN + senderN);
    assert RankOf(m) == GradeOf(g) + tailM && RankOf(n) == GradeOf(h) + tailN;
    hide RankOf, RankBefore, BytesBefore, GradeBefore, GradeOf;
    RankParts(GradeOf(g), GradeOf(h), tailM, tailN);
    GradeIsFields(g, h);
    RankParts(g.identity, h.identity, stepsM + senderM, stepsN + senderN);
    RankIsBytes(g.identity, h.identity);
    RankParts(stepsM, stepsN, senderM, senderN);
    OneNumber(g.stepsRemoved, h.stepsRemoved);
    RankParts(m.source.clock, n.source.clock, portM, portN);
    RankIsBytes(m.source.clock, n.source.clock);
    OneNumber(m.source.port, n.source.port);
  }

  /** The master after a run of Announces without expiry is a source no other source heard
      is better than. */
  lemma NoneIsBetter(s: State, heard: seq<Heard>, local: PortIdentity)
    requires s.master.None? && s.masterRank.None? && heard != []
    requires Announces(heard) && FixedRanks(heard) && NoExpiry(s, heard, local)
    ensures exists k :: 0 <= k < |heard| && Listen(s, heard, local).master == Some(heard[k].message.source)
                && forall i :: 0 <= i < |heard| ==> !Better(heard[i].message, heard[k].message)
  {
    var k := MasterIsBest(s, heard, local);
    var best := heard[k].message;
    hide RankOf, Listen, Better;
    forall i | 0 <= i < |heard|
      ensures !Better(heard[i].message, best)
    {
      RankIsFields(heard[i].message, best);
      assert !Beats(heard[i].message, best);
    }
  }

  /** Of two clocks the one with the smaller first priority becomes and stays master,
      whichever is heard first and whatever else they announce. */
  lemma PriorityDecides(s: State, x: Heard, y: Heard, local: PortIdentity)
    requires s.master.None? && s.masterRank.None? && s.lastAnnounce == NEVER
    requires Announces([x, y]) && x.message.source != y.message.source
    requires x.now != NEVER && y.now - x.now < 3_000_000_000
    requires x.message.grandmaster.priority1 != y.message.grandmaster.priority1
    ensures var best := if x.message.grandmaster.priority1 < y.message.grandmaster.priority1 then x else y;
            Listen(s, [x, y], local).master == Some(best.message.source)
  {
    var heard := [x, y];
    assert heard[0] == x && heard[1] == y;
    ListenTo(s, heard, local);
    ListenTo(s, [x], local);
    assert heard[..1] == [x] && [x][..0] == [];
    RankIsFields(x.message, y.message);
    RankIsFields(y.message, x.message);
    hide RankOf, RankBefore;
  }

  /** After three seconds without an Announce the next clock heard is master, however it
      ranks. */
  lemma ExpiredMasterIsReplaced(s: State, m: Message, now: int)
    requires RanksFit(s) && WellFormed(m) && s.lastAnnounce != NEVER && now - s.lastAnnounce >= 3_000_000_000
    ensures var r := AfterAnnounce(s, m, now);
            r.master == Some(m.source) && r.masterRank == Some(RankOf(m)) && r.lastAnnounce == now
  {
  }

  /** Every Announce of the master itself counts, also one that ranks it lower; it loses
      nothing measured. */
  lemma MasterRefreshes(s: State, m: Message, now: int)
    requires RanksFit(s) && WellFormed(m) && s.master == Some(m.source)
    ensures AfterAnnounce(s, m, now) == s.(masterRank := Some(RankOf(m)), lastAnnounce := now)
  {
  }

  /** An Announce that is not better changes nothing while the master is not three seconds
      silent. */
  lemma WorseIsIgnored(s: State, best: Message, m: Message, now: int)
    requires WellFormed(best) && WellFormed(m) && RanksFit(s) && m.source != best.source && !Better(m, best)
    requires s.master == Some(best.source) && s.masterRank == Some(RankOf(best)) && now - s.lastAnnounce < 3_000_000_000
    ensures AfterAnnounce(s, m, now) == s
  {
    RankIsFields(m, best);
    hide RankOf, RankBefore, Better;
  }
}
