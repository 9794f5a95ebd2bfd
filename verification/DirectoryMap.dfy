/** The session directory as a map with least-recently-seen eviction
    (Core/SessionDirectory.cpp). */
module DirectoryMap {
  import opened Common
  import opened Sessions
  import opened SessionDirectories

  ghost predicate Unique(t: Table) {
    forall i, j :: 0 <= i < j < |t| && t[i].Some? && t[j].Some? ==> KeyOf(t[i].value) != KeyOf(t[j].value)
  }

  /** The map a table stands for. */
  function AsMap(t: Table): (m: map<Key, Record>)
    ensures |m| <= |t|
  {
    if t == [] then map[]
    else
      var last, rest := t[|t| - 1], AsMap(t[..|t| - 1]);
      if last.None? then rest else rest[KeyOf(last.value) := last.value]
  }

  /** With unique keys a key is mapped to a record exactly when some slot holds it. */
  lemma {:induction false} MapHolds(t: Table, key: Key)
    requires Unique(t)
    ensures key in AsMap(t) <==> exists i :: 0 <= i < |t| && Matches(t[i], key)
    ensures forall i :: 0 <= i < |t| && Matches(t[i], key) ==> key in AsMap(t) && AsMap(t)[key] == t[i].value
  {
    if t != [] {
      var n := |t| - 1;
      assert forall i :: 0 <= i < n ==> t[..n][i] == t[i];
      MapHolds(t[..n], key);
      assert Matches(t[n], key) ==> forall i :: 0 <= i < n ==> !Matches(t[i], key);
    }
  }

  /** The map is full exactly when no slot is free. */
  lemma {:induction false} MapFull(t: Table)
    requires Unique(t)
    ensures |AsMap(t)| == |t| <==> None !in t
  {
    if t != [] {
      var n := |t| - 1;
      assert t == t[..n] + [t[n]];
      MapFull(t[..n]);
      if t[n].Some? {
        var key := KeyOf(t[n].value);
        MapHolds(t[..n], key);
        assert forall i :: 0 <= i < n ==> !Matches(t[..n][i], key);
        assert AsMap(t).Keys == AsMap(t[..n]).Keys + {key};
      }
    }
  }

  // ----- The slot an upsert writes -----

  /** Every upsert has exactly one slot to write. */
  lemma TargetExists(t: Table, key: Key) returns (k: nat)
    requires 0 < |t|
    ensures IsTarget(t, key, k) && forall j: nat :: IsTarget(t, key, j) ==> j == k
  {
    if exists i :: 0 <= i < |t| && Matches(t[i], key) {
      k := FirstMatch(t, key, |t|);
    } else if None in t {
      k := FirstNone(t, |t|);
    } else {
      k := FirstOldest(t, |t|);
    }
  }

  lemma {:induction false} FirstMatch(t: Table, key: Key, n: nat) returns (k: nat)
    requires n <= |t| && exists i :: 0 <= i < n && Matches(t[i], key)
    ensures k < n && Matches(t[k], key) && forall i :: 0 <= i < k ==> !Matches(t[i], key)
  {
    if i :| 0 <= i < n - 1 && Matches(t[i], key) {
      k := FirstMatch(t, key, n - 1);
    } else {
      k := n - 1;
    }
  }

  lemma {:induction false} FirstNone(t: Table, n: nat) returns (k: nat)
    requires n <= |t| && exists i :: 0 <= i < n && t[i].None?
    ensures k < n && t[k].None? && forall i :: 0 <= i < k ==> t[i].Some?
  {
    if i :| 0 <= i < n - 1 && t[i].None? {
      k := FirstNone(t, n - 1);
    } else {
      k := n - 1;
    }
  }

  lemma {:induction false} FirstOldest(t: Table, n: nat) returns (k: nat)
    requires 0 < n <= |t| && forall i :: 0 <= i < |t| ==> t[i].Some?
    ensures k < n
    ensures forall i :: 0 <= i < n ==>
      t[k].value.lastSeen <= t[i].value.lastSeen && (i < k ==> t[k].value.lastSeen < t[i].value.lastSeen)
  {
    if n == 1 {
      k := 0;
    } else {
      k := FirstOldest(t, n - 1);
      if t[n - 1].value.lastSeen < t[k].value.lastSeen {
        k := n - 1;
      }
    }
  }

  // ----- One upsert -----

  lemma UpsertUnique(t: Table, r: Record, k: nat)
    requires Unique(t) && IsTarget(t, KeyOf(r), k)
    ensures Unique(t[k := Some(r)])
  {
  }

  /** The entry that is dropped: the least recently seen one, and only when the key is
      new and the map is full. */
  ghost predicate Evicted(m: map<Key, Record>, victim: Key) {
    victim in m && forall key :: key in m ==> m[victim].lastSeen <= m[key].lastSeen
  }

  /** `upsert` on the map. */
  lemma UpsertRefinesMap(t: Table, r: Record, k: nat)
    requires |t| == SLOTS && Unique(t) && IsTarget(t, KeyOf(r), k)
    ensures Unique(t[k := Some(r)])
    ensures var m, after := AsMap(t), AsMap(t[k := Some(r)]);
            if KeyOf(r) in m || |m| < SLOTS then after == m[KeyOf(r) := r]
            else t[k].Some? && Evicted(m, KeyOf(t[k].value)) && after == (m - {KeyOf(t[k].value)})[KeyOf(r) := r]
  {
    var key, u := KeyOf(r), t[k := Some(r)];
    UpsertUnique(t, r, k);
    MapHolds(t, key);
    MapFull(t);
    var m, after := AsMap(t), AsMap(u);
    var drop := if t[k].Some? then {KeyOf(t[k].value)} else {};
    forall x: Key
      ensures x in after <==> x in (m - drop)[key := r]
      ensures x in after ==> after[x] == (m - drop)[key := r][x]
    {
      AfterOneSlot(t, r, k, x);
    }
    assert after == (m - drop)[key := r];
    if key in m {
      assert drop == {key};
    } else if |m| < SLOTS {
      assert drop == {};
    } else {
      forall x | x in m
        ensures t[k].value.lastSeen <= m[x].lastSeen
      {
        MapHolds(t, x);
      }
      MapHolds(t, KeyOf(t[k].value));
      assert Matches(t[k], KeyOf(t[k].value));
    }
  }

  lemma AfterOneSlot(t: Table, r: Record, k: nat, x: Key)
    requires k < |t| && Unique(t) && Unique(t[k := Some(r)])
    ensures var m, after := AsMap(t), AsMap(t[k := Some(r)]);
            var drop := if t[k].Some? then {KeyOf(t[k].value)} else {};
            (x in after <==> x in (m - drop)[KeyOf(r) := r])
            && (x in after ==> after[x] == (m - drop)[KeyOf(r) := r][x])
  {
    var u := t[k := Some(r)];
    MapHolds(t, x);
    MapHolds(u, x);
    hide AsMap, Unique;
    assert Matches(u[k], KeyOf(r));
    if x != KeyOf(r) {
      assert forall i :: 0 <= i < |t| && i != k ==> u[i] == t[i];
      if i: int :| 0 <= i < |t| && i != k && Matches(t[i], x) {
        assert Matches(u[i], x);
        OneHolder(t, x, i, k);
      }
    }
  }

  lemma OneHolder(t: Table, key: Key, i: nat, j: nat)
    requires Unique(t) && i < |t| && j < |t| && i != j && Matches(t[i], key)
    ensures !Matches(t[j], key)
  {
  }

  // ----- Erase and expire -----

  lemma WithoutRefinesMap(t: Table, key: Key)
    requires Unique(t)
    ensures Unique(Without(t, key)) && AsMap(Without(t, key)) == AsMap(t) - {key}
  {
    var u := Without(t, key);
    forall x: Key
      ensures x in AsMap(u) <==> x in AsMap(t) - {key}
      ensures x in AsMap(u) ==> AsMap(u)[x] == AsMap(t)[x]
    {
      MapHolds(t, x);
      MapHolds(u, x);
      assert forall i :: 0 <= i < |t| ==> (Matches(u[i], x) <==> Matches(t[i], x) && x != key);
    }
  }

  lemma YoungerRefinesMap(t: Table, oldestAllowed: u64)
    requires Unique(t)
    ensures Unique(Younger(t, oldestAllowed))
    ensures AsMap(Younger(t, oldestAllowed))
            == map key | key in AsMap(t) && AsMap(t)[key].lastSeen >= oldestAllowed :: AsMap(t)[key]
  {
    var u := Younger(t, oldestAllowed);
    forall x: Key
      ensures x in AsMap(u) <==> x in AsMap(t) && AsMap(t)[x].lastSeen >= oldestAllowed
      ensures x in AsMap(u) ==> AsMap(u)[x] == AsMap(t)[x]
    {
      MapHolds(t, x);
      MapHolds(u, x);
      forall i | 0 <= i < |t|
        ensures Matches(u[i], x) <==> Matches(t[i], x) && t[i].value.lastSeen >= oldestAllowed
      {
      }
    }
  }

  /** The listing holds every record of the map exactly once. */
  lemma {:induction false} PresentIsTheMap(t: Table)
    requires Unique(t)
    ensures |Present(t)| == |AsMap(t)|
    ensures forall r :: r in Present(t) <==> KeyOf(r) in AsMap(t) && AsMap(t)[KeyOf(r)] == r
  {
    if t != [] {
      var n := |t| - 1;
      PresentIsTheMap(t[..n]);
      if t[n].Some? {
        var key := KeyOf(t[n].value);
        MapHolds(t[..n], key);
        assert forall i :: 0 <= i < n ==> !Matches(t[..n][i], key);
        assert AsMap(t).Keys == AsMap(t[..n]).Keys + {key};
      }
    }
  }

  // ----- Runs -----

  datatype Call =
    | Upserts(messageHash: u16, session: SessionDescription, now: u64)
    | Erases(messageHash: u16, originAddress: string)
    | Expires(oldestAllowed: u64)

  /** What one call may make of the table. */
  ghost predicate Step(t: Table, c: Call, u: Table) {
    match c
    case Upserts(h, s, now) =>
      exists k: nat :: IsTarget(t, (h, s.originAddress), k) && u == t[k := Some(Stored(h, s, now))]
    case Erases(h, origin) => u == Without(t, (h, origin))
    case Expires(oldest) => u == Younger(t, oldest)
  }

  /** What one call should make of the map. */
  ghost predicate MapStep(m: map<Key, Record>, c: Call, n: map<Key, Record>) {
    match c
    case Upserts(h, s, now) =>
      var r := Stored(h, s, now);
      var key := (h, s.originAddress);
      if key in m || |m| < SLOTS then n == m[key := r]
      else exists victim :: Evicted(m, victim) && n == (m - {victim})[key := r]
    case Erases(h, origin) => n == m - {(h, origin)}
    case Expires(oldest) => n == map key | key in m && m[key].lastSeen >= oldest :: m[key]
  }

  /** The origin fits its cells: at most fifteen characters, none of them NUL. */
  predicate Fits(origin: string) {
    Clip(origin, IPV4_CAPACITY) == origin
  }

  predicate AllFit(calls: seq<Call>) {
    forall c :: c in calls && c.Upserts? ==> Fits(c.session.originAddress)
  }

  lemma StepRefinesMap(t: Table, c: Call, u: Table)
    requires |t| == SLOTS && Unique(t) && Step(t, c, u)
    requires c.Upserts? ==> Fits(c.session.originAddress)
    ensures |u| == SLOTS && Unique(u) && MapStep(AsMap(t), c, AsMap(u))
  {
    match c
    case Upserts(h, s, now) =>
      var k: nat :| IsTarget(t, (h, s.originAddress), k) && u == t[k := Some(Stored(h, s, now))];
      UpsertRefinesMap(t, Stored(h, s, now), k);
    case Erases(h, origin) => WithoutRefinesMap(t, (h, origin));
    case Expires(oldest) => YoungerRefinesMap(t, oldest);
  }

  /** The tables along a sequence of calls. */
  ghost predicate Trace(tables: seq<Table>, calls: seq<Call>) {
    && |tables| == |calls| + 1
    && |tables[0]| == SLOTS && (forall i :: 0 <= i < SLOTS ==> tables[0][i].None?)
    && forall i :: 0 <= i < |calls| ==> Step(tables[i], calls[i], tables[i + 1])
  }

  /** The directory is the map: from an empty block every sequence of calls with fitting
      origins keeps the keys unique and moves the map as specified. */
  lemma {:induction false} DirectoryIsAMap(tables: seq<Table>, calls: seq<Call>, n: nat)
    requires Trace(tables, calls) && AllFit(calls) && n <= |calls|
    ensures |tables[n]| == 16 && Unique(tables[n]) && |AsMap(tables[n])| <= 16
    ensures n == 0 ==> AsMap(tables[n]) == map[]
    ensures n > 0 ==> MapStep(AsMap(tables[n - 1]), calls[n - 1], AsMap(tables[n]))
  {
    if n > 0 {
      DirectoryIsAMap(tables, calls, n - 1);
      assert calls[n - 1] in calls;
      StepRefinesMap(tables[n - 1], calls[n - 1], tables[n]);
    } else {
      forall key: Key
        ensures key !in AsMap(tables[0])
      {
        MapHolds(tables[0], key);
      }
    }
  }

  // ----- Origins that do not fit -----

  /** Upserts of a session keep every table's keys unique exactly when its origin fits:
      the code compares the clipped text it stored with the whole text it is given. */
  lemma UniqueIffOriginFits(messageHash: u16, s: SessionDescription, now: u64)
    ensures (forall t: Table, k: nat :: |t| == SLOTS && Unique(t) && IsTarget(t, (messageHash, s.originAddress), k) ==>
               Unique(t[k := Some(Stored(messageHash, s, now))]))
            <==> Fits(s.originAddress)
  {
    var r := Stored(messageHash, s, now);
    if Fits(s.originAddress) {
      forall t: Table, k: nat | |t| == SLOTS && Unique(t) && IsTarget(t, (messageHash, s.originAddress), k)
        ensures Unique(t[k := Some(r)])
      {
        UpsertUnique(t, r, k);
      }
    } else {
      var t: Table := [Some(r)] + seq(SLOTS - 1, _ => None);
      assert forall i :: 0 < i < SLOTS ==> t[i] == None;
      assert t[1] == None;
      assert forall i :: 0 <= i < SLOTS ==> !Matches(t[i], (messageHash, s.originAddress));
      assert IsTarget(t, (messageHash, s.originAddress), 1);
      assert t[1 := Some(r)][0] == t[1 := Some(r)][1] == Some(r);
      assert !Unique(t[1 := Some(r)]);
    }
  }

  lemma {:induction false} TextEndsAtNul(text: string)
    ensures NUL !in UpToNul(text) && |UpToNul(text)| <= |text|
    ensures NUL !in text ==> UpToNul(text) == text
  {
    if text != [] {
      assert text == [text[0]] + text[1..];
      TextEndsAtNul(text[1..]);
    }
  }

  /** A text comes back whole exactly when it leaves a cell for its NUL and has none itself. */
  lemma ClipKeepsIff(text: string, capacity: nat)
    requires capacity > 0
    ensures Clip(text, capacity) == text <==> |text| < capacity && NUL !in text
    ensures Clip(Clip(text, capacity), capacity) == Clip(text, capacity)
  {
    var head := text[..Min(|text|, capacity - 1)];
    TextEndsAtNul(head);
    TextEndsAtNul(UpToNul(head));
    if |text| < capacity {
      assert head == text;
    }
    assert UpToNul(head)[..|UpToNul(head)|] == UpToNul(head);
  }

  /** Every stored origin is a clipped one. */
  ghost predicate Clipped(t: Table) {
    forall i :: 0 <= i < |t| && t[i].Some? ==> Fits(t[i].value.originAddress)
  }

  lemma StepKeepsClipped(t: Table, c: Call, u: Table)
    requires Clipped(t) && Step(t, c, u)
    ensures Clipped(u)
  {
    hide Clip, Matches;
    match c
    case Upserts(h, s, now) =>
      var k: nat :| IsTarget(t, (h, s.originAddress), k) && u == t[k := Some(Stored(h, s, now))];
      ClipKeepsIff(s.originAddress, IPV4_CAPACITY);
      assert forall i :: 0 <= i < |u| ==> u[i] == t[i] || u[i] == Some(Stored(h, s, now));
    case Erases(h, origin) =>
      assert forall i :: 0 <= i < |t| && u[i].Some? ==> u[i] == t[i];
    case Expires(oldest) =>
      assert forall i :: 0 <= i < |t| && u[i].Some? ==> u[i] == t[i];
  }

  /** Whatever is announced, every table a directory reaches from an empty block holds
      clipped origins only. */
  lemma {:induction false} ReachableIsClipped(tables: seq<Table>, calls: seq<Call>, n: nat)
    requires Trace(tables, calls) && n <= |calls|
    ensures |tables[n]| == SLOTS && Clipped(tables[n])
  {
    if n > 0 {
      ReachableIsClipped(tables, calls, n - 1);
      assert Step(tables[n - 1], calls[n - 1], tables[n]);
      StepKeepsClipped(tables[n - 1], calls[n - 1], tables[n]);
    }
  }

  ghost predicate Empty(t: Table) {
    |t| == SLOTS && forall i :: 0 <= i < SLOTS ==> t[i].None?
  }

  lemma FirstUpsert(t: Table, h: u16, s: SessionDescription, now: u64, u: Table)
    requires Empty(t) && Step(t, Upserts(h, s, now), u)
    ensures u == t[0 := Some(Stored(h, s, now))]
  {
    hide Stored;
    assert t[0].None?;
  }

  lemma SecondUpsert(t: Table, r: Record, h: u16, s: SessionDescription, now: u64, u: Table)
    requires Empty(t) && Step(t[0 := Some(r)], Upserts(h, s, now), u)
    ensures u == if KeyOf(r) == (h, s.originAddress) then t[0 := Some(Stored(h, s, now))]
                 else t[0 := Some(r)][1 := Some(Stored(h, s, now))]
  {
    hide Stored;
    var first := t[0 := Some(r)];
    assert first[0] == Some(r) && first[1].None?;
    assert KeyOf(r) == (h, s.originAddress) ==> Matches(first[0], (h, s.originAddress));
  }

  lemma {:induction false} NonePresent(t: Table)
    requires forall i :: 0 <= i < |t| ==> t[i].None?
    ensures Present(t) == []
  {
    if t != [] {
      NonePresent(t[..|t| - 1]);
    }
  }

  lemma {:induction false} PresentAppend(t: Table, u: Table)
    ensures Present(t + u) == Present(t) + Present(u)
    decreases |u|
  {
    if u == [] {
      assert t + u == t;
    } else {
      var n := |u| - 1;
      assert (t + u)[..|t| + n] == t + u[..n];
      PresentAppend(t, u[..n]);
    }
  }

  lemma OnePresent(t: Table, r: Record)
    requires Empty(t)
    ensures Present(t[0 := Some(r)]) == [r]
  {
    assert t[0 := Some(r)] == [Some(r)] + t[1..];
    PresentAppend([Some(r)], t[1..]);
    NonePresent(t[1..]);
    assert [Some(r)][..0] == [];
  }

  lemma TwoPresent(t: Table, a: Record, b: Record)
    requires Empty(t)
    ensures Present(t[0 := Some(a)][1 := Some(b)]) == [a, b]
  {
    assert t[0 := Some(a)][1 := Some(b)] == [Some(a)] + ([Some(b)] + t[2..]);
    PresentAppend([Some(a)], [Some(b)] + t[2..]);
    PresentAppend([Some(b)], t[2..]);
    NonePresent(t[2..]);
    assert [Some(a)][..0] == [] && [Some(b)][..0] == [];
  }

  /** The same session upserted twice into an empty directory is listed once when its
      origin fits, and twice under one key when it does not. */
  lemma ListedTwiceUnlessFits(h: u16, s: SessionDescription, first: u64, second: u64, t: Table, u: Table, v: Table)
    requires Empty(t) && Step(t, Upserts(h, s, first), u) && Step(u, Upserts(h, s, second), v)
    ensures Unique(v) <==> Fits(s.originAddress)
    ensures Present(v) == if Fits(s.originAddress) then [Stored(h, s, second)] else [Stored(h, s, first), Stored(h, s, second)]
    ensures KeyOf(Stored(h, s, first)) == KeyOf(Stored(h, s, second))
  {
    var a, b := Stored(h, s, first), Stored(h, s, second);
    assert KeyOf(a) == KeyOf(b) && (KeyOf(a) == (h, s.originAddress) <==> Fits(s.originAddress));
    FirstUpsert(t, h, s, first, u);
    hide Stored, Step, KeyOf, Fits;
    SecondUpsert(t, a, h, s, second, v);
    OnePresent(t, b);
    TwoPresent(t, a, b);
    if !Fits(s.originAddress) {
      assert v[0] == Some(a) && v[1] == Some(b);
    }
  }

  /** Which fields of a session come back whole: a name of at most 95 characters, addresses
      of at most 15, none with a NUL in them; the numbers always do. */
  lemma FieldsKeptIff(h: u16, s: SessionDescription, now: u64)
    ensures var r := Stored(h, s, now);
            && (r.name == s.name <==> |s.name| <= 95 && NUL !in s.name)
            && (r.originAddress == s.originAddress <==> |s.originAddress| <= 15 && NUL !in s.originAddress)
            && (r.sourceAddress == s.sourceAddress <==> |s.sourceAddress| <= 15 && NUL !in s.sourceAddress)
            && (r.multicastAddress == s.multicastAddress <==> |s.multicastAddress| <= 15 && NUL !in s.multicastAddress)
            && r.messageHash == h && r.port == s.port && r.channels == s.channels && r.sampleRate == s.sampleRate
            && r.framesPerPacket == s.framesPerPacket && r.payloadType == s.payloadType && r.ptpDomain == s.ptpDomain
            && r.lastSeen == now
  {
    ClipKeepsIff(s.name, NAME_CAPACITY);
    ClipKeepsIff(s.originAddress, IPV4_CAPACITY);
    ClipKeepsIff(s.sourceAddress, IPV4_CAPACITY);
    ClipKeepsIff(s.multicastAddress, IPV4_CAPACITY);
    hide Clip;
  }
}
