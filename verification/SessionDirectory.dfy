/** The directory of discovered sessions: sixteen slots that stand for a map keyed by
    message hash and origin (Core/SessionDirectory.cpp). Calls are whole here;
    SessionSlot has the interleaving of one slot with its readers. */
module SessionDirectories {
  import opened Common
  import opened Sessions

  const SLOTS: nat := 16
  const NAME_CAPACITY: nat := 96
  const IPV4_CAPACITY: nat := 16
  const NUL: char := '\0'

  /** `DiscoveredSessionSnapshot`. */
  datatype Record = Record(
    messageHash: u16,
    name: string,
    originAddress: string,
    sourceAddress: string,
    multicastAddress: string,
    port: u16,
    channels: u16,
    sampleRate: u32,
    framesPerPacket: u32,
    payloadType: u8,
    ptpDomain: u8,
    lastSeen: u64)

  /** `SharedDiscoveredSession`: the texts are arrays of cells. */
  datatype Slot = Slot(
    revision: u32,
    active: bool,
    messageHash: u16,
    port: u16,
    channels: u16,
    sampleRate: u32,
    framesPerPacket: u32,
    payloadType: u8,
    ptpDomain: u8,
    lastSeen: u64,
    name: seq<char>,
    originAddress: seq<char>,
    sourceAddress: seq<char>,
    multicastAddress: seq<char>)

  // ----- Texts -----

  function UpToNul(cells: seq<char>): string {
    if cells == [] || cells[0] == NUL then [] else [cells[0]] + UpToNul(cells[1..])
  }

  /** What a text stored in `capacity` cells reads back as. */
  function Clip(text: string, capacity: nat): string
    requires capacity > 0
  {
    UpToNul(text[..Min(|text|, capacity - 1)])
  }

  function Nuls(n: nat): seq<char> {
    seq(n, _ => NUL)
  }

  method StoreText(capacity: nat, source: string) returns (cells: seq<char>)
    requires capacity > 0
    ensures |cells| == capacity && UpToNul(cells) == Clip(source, capacity)
    ensures var count := Min(|source|, capacity - 1); cells == source[..count] + Nuls(capacity - count)
  {
    var count := Min(|source|, capacity - 1);
    cells := [];
    for i := 0 to count
      invariant cells == source[..i]
    {
      cells := cells + [source[i]];
    }
    for i := count to capacity
      invariant cells == source[..count] + Nuls(i - count)
    {
      cells := cells + [NUL];
    }
    NulsEndText(source[..count], capacity - count);
  }

  lemma {:induction false} NulsEndText(text: string, n: nat)
    ensures UpToNul(text + Nuls(n)) == UpToNul(text)
  {
    if text == [] {
      assert n > 0 ==> (text + Nuls(n))[0] == NUL;
    } else {
      assert (text + Nuls(n))[1..] == text[1..] + Nuls(n);
      NulsEndText(text[1..], n);
    }
  }

  method LoadText(source: seq<char>) returns (text: string)
    ensures text == UpToNul(source)
  {
    text := [];
    for i := 0 to |source|
      invariant text + UpToNul(source[i..]) == UpToNul(source)
    {
      if source[i] == NUL {
        return;
      }
      assert source[i..][1..] == source[i + 1..];
      text := text + [source[i]];
    }
  }

  // ----- One slot -----

  /** The record a reader obtains from a slot, if any. */
  function View(slot: Slot): Option<Record> {
    if slot.revision % 2 != 0 || !slot.active then None
    else Some(Record(slot.messageHash, UpToNul(slot.name), UpToNul(slot.originAddress), UpToNul(slot.sourceAddress),
                     UpToNul(slot.multicastAddress), slot.port, slot.channels, slot.sampleRate, slot.framesPerPacket,
                     slot.payloadType, slot.ptpDomain, slot.lastSeen))
  }

  /** The record an upsert leaves: every text is clipped to its cells. */
  function Stored(messageHash: u16, s: SessionDescription, now: u64): Record {
    Record(messageHash, Clip(s.name, NAME_CAPACITY), Clip(s.originAddress, IPV4_CAPACITY),
           Clip(s.sourceAddress, IPV4_CAPACITY), Clip(s.multicastAddress, IPV4_CAPACITY),
           s.port, s.channels, s.sampleRate, s.framesPerPacket, s.payloadType, s.ptpDomain, now)
  }

  method SnapshotSlot(slot: Slot) returns (result: Option<Record>)
    ensures result == View(slot)
  {
    for attempt := 0 to 4
      invariant attempt > 0 ==> View(slot) == None
    {
      var before := slot.revision;
      if before % 2 != 0 || !slot.active {
        continue;
      }
      var name := LoadText(slot.name);
      var origin := LoadText(slot.originAddress);
      var source := LoadText(slot.sourceAddress);
      var multicast := LoadText(slot.multicastAddress);
      var candidate := Record(slot.messageHash, name, origin, source, multicast, slot.port, slot.channels,
                              slot.sampleRate, slot.framesPerPacket, slot.payloadType, slot.ptpDomain, slot.lastSeen);
      var after := slot.revision;
      if before == after && after % 2 == 0 && slot.active {
        return Some(candidate);
      }
    }
    return None;
  }

  function BeginWrite(slot: Slot): Slot {
    slot.(revision := (slot.revision + 1) % TWO32, active := false)
  }

  function EndWrite(slot: Slot, active: bool): Slot {
    slot.(active := active, revision := (slot.revision + 1) % TWO32)
  }

  /** A whole write keeps the revision even. */
  lemma TwoBumps(revision: u32)
    ensures ((revision + 1) % TWO32 + 1) % TWO32 % 2 == revision % 2
  {
  }

  // ----- The table of records -----

  type Table = seq<Option<Record>>

  function Views(slots: seq<Slot>): (t: Table)
    ensures |t| == |slots|
  {
    seq(|slots|, i requires 0 <= i < |slots| => View(slots[i]))
  }

  type Key = (u16, string)

  function KeyOf(r: Record): Key {
    (r.messageHash, r.originAddress)
  }

  predicate Matches(entry: Option<Record>, key: Key) {
    entry.Some? && KeyOf(entry.value) == key
  }

  /** The slot an upsert writes: the one that already holds the key, else the first free
      one, else the first one seen longest ago. */
  ghost predicate IsTarget(t: Table, key: Key, k: nat) {
    && k < |t|
    && if exists i :: 0 <= i < |t| && Matches(t[i], key) then
         Matches(t[k], key) && forall i :: 0 <= i < k ==> !Matches(t[i], key)
       else if None in t then
         t[k].None? && forall i :: 0 <= i < k ==> t[i].Some?
       else
         t[k].Some? && forall i :: 0 <= i < |t| && t[i].Some? ==>
           t[k].value.lastSeen <= t[i].value.lastSeen && (i < k ==> t[k].value.lastSeen < t[i].value.lastSeen)
  }

  class SessionDirectory {
    const slots: array<Slot>

    ghost predicate Valid()
      reads slots
    {
      slots.Length == SLOTS && forall i :: 0 <= i < SLOTS ==> slots[i].revision % 2 == 0
    }

    ghost function Records(): (t: Table)
      reads slots
      ensures |t| == slots.Length
    {
      Views(slots[..])
    }

    /** The block as the engine leaves it when it starts: nothing active. */
    constructor ()
      ensures Valid() && fresh(slots)
      ensures forall i :: 0 <= i < SLOTS ==> Records()[i] == None
    {
      slots := new Slot[SLOTS](_ => Slot(0, false, 0, 0, 0, 0, 0, 0, 0, 0, Nuls(NAME_CAPACITY), Nuls(IPV4_CAPACITY),
                                         Nuls(IPV4_CAPACITY), Nuls(IPV4_CAPACITY)));
    }

    method FindTarget(messageHash: u16, originAddress: string) returns (k: nat)
      requires Valid()
      ensures IsTarget(Records(), (messageHash, originAddress), k)
    {
      ghost var t := Records();
      ghost var key := (messageHash, originAddress);
      var target: Option<nat> := None;
      var oldest: nat, oldestTime: u64 := 0, 0xFFFF_FFFF_FFFF_FFFF;
      for i := 0 to SLOTS
        invariant forall j :: 0 <= j < i ==> !Matches(t[j], key)
        invariant target.None? ==> forall j :: 0 <= j < i ==> t[j].Some?
        invariant target.Some? ==>
            target.value < i && t[target.value].None? && forall j :: 0 <= j < target.value ==> t[j].Some?
        invariant oldest == 0 || oldest < i
        invariant i == 0 ==> oldestTime == 0xFFFF_FFFF_FFFF_FFFF
        invariant target.None? ==> forall j :: 0 <= j < i ==> oldestTime <= t[j].value.lastSeen
        invariant target.None? ==> forall j :: 0 <= j < oldest ==> oldestTime < t[j].value.lastSeen
        invariant target.None? && i > 0 ==> t[oldest].value.lastSeen == oldestTime
      {
        var current := SnapshotSlot(slots[i]);
        assert current == t[i];
        if current.None? {
          if target.None? {
            target := Some(i);
          }
          continue;
        }
        if current.value.messageHash == messageHash && current.value.originAddress == originAddress {
          assert Matches(t[i], key);
          return i;
        }
        if current.value.lastSeen < oldestTime {
          oldest, oldestTime := i, current.value.lastSeen;
        }
      }
      k := if target.Some? then target.value else oldest;
    }

    method Upsert(messageHash: u16, session: SessionDescription, now: u64)
      requires Valid()
      modifies slots
      ensures Valid()
      ensures exists k: nat :: IsTarget(old(Records()), (messageHash, session.originAddress), k)
                       && Records() == old(Records())[k := Some(Stored(messageHash, session, now))]
    {
      var k := FindTarget(messageHash, session.originAddress);
      hide IsTarget, Stored, View;
      Fill(k, messageHash, session, now);
      assert Records() == old(Records())[k := Some(Stored(messageHash, session, now))];
    }

    /** One slot takes the session, under its sequence lock. */
    method Fill(k: nat, messageHash: u16, session: SessionDescription, now: u64)
      requires Valid() && k < SLOTS
      modifies slots
      ensures slots[k].revision % 2 == 0 && View(slots[k]) == Some(Stored(messageHash, session, now))
      ensures forall j :: 0 <= j < slots.Length && j != k ==> slots[j] == old(slots[j])
    {
      hide UpToNul, Clip, Nuls;
      TwoBumps(slots[k].revision);
      slots[k] := BeginWrite(slots[k]);
      slots[k] := slots[k].(messageHash := messageHash, port := session.port, channels := session.channels,
        sampleRate := session.sampleRate, framesPerPacket := session.framesPerPacket,
        payloadType := session.payloadType, ptpDomain := session.ptpDomain, lastSeen := now);
      var name := StoreText(NAME_CAPACITY, session.name);
      var origin := StoreText(IPV4_CAPACITY, session.originAddress);
      var source := StoreText(IPV4_CAPACITY, session.sourceAddress);
      var multicast := StoreText(IPV4_CAPACITY, session.multicastAddress);
      slots[k] := slots[k].(name := name, originAddress := origin, sourceAddress := source, multicastAddress := multicast);
      slots[k] := EndWrite(slots[k], true);
    }

    /** One slot becomes free, under its sequence lock. */
    method Deactivate(i: nat)
      requires Valid() && i < SLOTS
      modifies slots
      ensures slots[i].revision % 2 == 0 && View(slots[i]) == None
      ensures forall j :: 0 <= j < slots.Length && j != i ==> slots[j] == old(slots[j])
    {
      TwoBumps(slots[i].revision);
      slots[i] := BeginWrite(slots[i]);
      slots[i] := EndWrite(slots[i], false);
    }

    method Erase(messageHash: u16, originAddress: string)
      requires Valid()
      modifies slots
      ensures Valid()
      ensures Records() == Without(old(Records()), (messageHash, originAddress))
    {
      hide View, UpToNul;
      for i := 0 to SLOTS
        invariant forall j :: 0 <= j < SLOTS ==> slots[j].revision % 2 == 0
        invariant forall j :: i <= j < SLOTS ==> slots[j] == old(slots[j])
        invariant forall j :: 0 <= j < i ==>
            View(slots[j]) == Without(old(Records()), (messageHash, originAddress))[j]
      {
        var current := SnapshotSlot(slots[i]);
        if current.None? || current.value.messageHash != messageHash || current.value.originAddress != originAddress {
          continue;
        }
        Deactivate(i);
      }
    }

    method Expire(oldestAllowed: u64)
      requires Valid()
      modifies slots
      ensures Valid()
      ensures Records() == Younger(old(Records()), oldestAllowed)
    {
      hide View, UpToNul;
      for i := 0 to SLOTS
        invariant forall j :: 0 <= j < SLOTS ==> slots[j].revision % 2 == 0
        invariant forall j :: i <= j < SLOTS ==> slots[j] == old(slots[j])
        invariant forall j :: 0 <= j < i ==> View(slots[j]) == Younger(old(Records()), oldestAllowed)[j]
      {
        var current := SnapshotSlot(slots[i]);
        if current.None? || current.value.lastSeen >= oldestAllowed {
          continue;
        }
        Deactivate(i);
      }
    }

    method Snapshots() returns (result: seq<Record>)
      requires Valid()
      ensures Sorted(result)
      ensures multiset(result) == multiset(Present(Records()))
    {
      ghost var t := Records();
      result := [];
      for i := 0 to SLOTS
        invariant result == Present(t[..i])
      {
        var session := SnapshotSlot(slots[i]);
        assert t[..i + 1][..i] == t[..i];
        if session.Some? {
          result := result + [session.value];
        }
      }
      assert t[..SLOTS] == t;
      result := Sort(result);
    }
  }

  /** The table after `erase`. */
  function Without(t: Table, key: Key): (r: Table)
    ensures |r| == |t|
  {
    seq(|t|, i requires 0 <= i < |t| => if Matches(t[i], key) then None else t[i])
  }

  /** The table after `expire`. */
  function Younger(t: Table, oldestAllowed: u64): (r: Table)
    ensures |r| == |t|
  {
    seq(|t|, i requires 0 <= i < |t| => if t[i].Some? && t[i].value.lastSeen < oldestAllowed then None else t[i])
  }

  /** The records of the occupied slots, in slot order. */
  function Present(t: Table): seq<Record> {
    if t == [] then []
    else
      var last := t[|t| - 1];
      Present(t[..|t| - 1]) + if last.Some? then [last.value] else []
  }

  // ----- The order of the listing -----

  /** `std::string` comparison: the first differing character decides, then the length. */
  predicate TextBefore(a: string, b: string) {
    if b == [] then false
    else if a == [] then true
    else if a[0] != b[0] then a[0] < b[0]
    else TextBefore(a[1..], b[1..])
  }

  predicate Before(a: Record, b: Record) {
    if a.name != b.name then TextBefore(a.name, b.name) else TextBefore(a.originAddress, b.originAddress)
  }

  /** No later entry sorts before an earlier one. */
  predicate Sorted(s: seq<Record>) {
    forall i, j :: 0 <= i < j < |s| ==> !Before(s[j], s[i])
  }

  /** One text sorts before another exactly when it is a proper beginning of it, or has the
      smaller character at the first difference. */
  lemma {:induction false} TextBeforeIff(a: string, b: string)
    ensures TextBefore(a, b) <==>
      exists k :: 0 <= k <= |a| && k < |b| && a[..k] == b[..k] && (k == |a| || a[k] < b[k])
  {
    if b == [] {
    } else if a == [] {
      assert a[..0] == b[..0];
    } else if a[0] != b[0] {
      assert a[0] < b[0] ==> a[..0] == b[..0];
      forall k | 0 < k <= |a| && k < |b|
        ensures a[..k] != b[..k]
      {
        assert a[..k][0] != b[..k][0];
      }
    } else {
      TextBeforeIff(a[1..], b[1..]);
      if k :| 0 <= k <= |a| - 1 && k < |b| - 1 && a[1..][..k] == b[1..][..k] && (k == |a| - 1 || a[1..][k] < b[1..][k]) {
        assert a[..k + 1] == [a[0]] + a[1..][..k] && b[..k + 1] == [b[0]] + b[1..][..k];
      }
      if k :| 0 <= k <= |a| && k < |b| && a[..k] == b[..k] && (k == |a| || a[k] < b[k]) {
        assert k > 0;
        assert a[1..][..k - 1] == a[..k][1..] && b[1..][..k - 1] == b[..k][1..];
      }
    }
  }

  /** The listing rises by name, and by origin within a name. */
  lemma ListingRises(s: seq<Record>, i: nat, j: nat)
    requires Sorted(s) && i < j < |s|
    ensures s[i].name == s[j].name || TextBefore(s[i].name, s[j].name)
    ensures s[i].name == s[j].name ==> s[i].originAddress == s[j].originAddress || TextBefore(s[i].originAddress, s[j].originAddress)
  {
    assert !Before(s[j], s[i]);
    TextTotal(s[i].name, s[j].name);
    TextTotal(s[i].originAddress, s[j].originAddress);
    hide TextBefore;
  }

  lemma {:induction false} TextTotal(a: string, b: string)
    ensures !(TextBefore(a, b) && TextBefore(b, a))
    ensures a != b ==> TextBefore(a, b) || TextBefore(b, a)
    ensures !TextBefore(a, a)
  {
    if a != [] && b != [] && a[0] == b[0] {
      TextTotal(a[1..], b[1..]);
      assert a != b ==> a[1..] != b[1..] by {
        assert a == [a[0]] + a[1..] && b == [b[0]] + b[1..];
      }
    }
    if a != [] {
      TextTotal(a[1..], a[1..]);
    }
  }

  lemma {:induction false} TextTransitive(a: string, b: string, c: string)
    ensures TextBefore(a, b) && TextBefore(b, c) ==> TextBefore(a, c)
  {
    if a != [] && b != [] && c != [] {
      TextTransitive(a[1..], b[1..], c[1..]);
    }
  }

  lemma BeforeOrder(a: Record, b: Record, c: Record)
    ensures !(Before(a, b) && Before(b, a))
    ensures !Before(b, a) && !Before(c, b) ==> !Before(c, a)
  {
    TextTotal(a.name, b.name);
    TextTotal(b.name, c.name);
    TextTotal(a.name, c.name);
    TextTransitive(c.name, a.name, b.name);
    TextTransitive(b.name, c.name, a.name);
    TextTotal(a.originAddress, b.originAddress);
    TextTotal(b.originAddress, c.originAddress);
    TextTotal(a.originAddress, c.originAddress);
    TextTransitive(c.originAddress, a.originAddress, b.originAddress);
    TextTransitive(b.originAddress, c.originAddress, a.originAddress);
  }

  /** Stands for `std::sort`: any sorted permutation will do. */
  method Sort(s: seq<Record>) returns (r: seq<Record>)
    ensures Sorted(r) && multiset(r) == multiset(s)
  {
    r := [];
    for i := 0 to |s|
      invariant Sorted(r) && multiset(r) == multiset(s[..i])
    {
      assert s[..i + 1] == s[..i] + [s[i]];
      r := Insert(r, s[i]);
    }
    assert s[..|s|] == s;
  }

  method Insert(s: seq<Record>, x: Record) returns (r: seq<Record>)
    requires Sorted(s)
    ensures Sorted(r) && multiset(r) == multiset(s) + multiset{x}
  {
    var p := |s|;
    while p > 0 && Before(x, s[p - 1])
      invariant 0 <= p <= |s|
      invariant forall j :: p <= j < |s| ==> Before(x, s[j])
    {
      p := p - 1;
    }
    r := s[..p] + [x] + s[p..];
    assert s == s[..p] + s[p..];
    InsertionIsSorted(s, x, p);
  }

  lemma InsertionIsSorted(s: seq<Record>, x: Record, p: nat)
    requires Sorted(s) && p <= |s| && (p > 0 ==> !Before(x, s[p - 1])) && forall j :: p <= j < |s| ==> Before(x, s[j])
    ensures Sorted(s[..p] + [x] + s[p..])
  {
    var r := s[..p] + [x] + s[p..];
    forall i | 0 <= i < p
      ensures !Before(x, s[i])
    {
      BeforeOrder(s[i], s[p - 1], x);
      BeforeOrder(s[p - 1], s[p - 1], x);
    }
    forall j | p <= j < |s|
      ensures !Before(s[j], x)
    {
      BeforeOrder(x, s[j], x);
    }
    hide Before;
    forall i, j | 0 <= i < j < |r|
      ensures !Before(r[j], r[i])
    {
      var oldI, oldJ := if i < p then i else i - 1, if j < p then j else j - 1;
      assert i != p ==> r[i] == s[oldI];
      assert j != p ==> r[j] == s[oldJ];
    }
  }
}
