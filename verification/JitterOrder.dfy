/** In-order delivery of a window of packets, and draining of what is left behind. */
module JitterOrder {
  import opened Common
  import opened Modular
  import opened JitterBuffers
  import opened JitterProtocol
  import opened JitterInvariant

  // ----- Draining -----

  /** A buffer between calls. */
  ghost predicate Quiet(c: Core) {
    && c.Valid()
    && Divides(|c.slots|, TWO16)
    && (forall i | 0 <= i < |c.slots| :: c.slots[i].state.Empty? || c.slots[i].state.Ready?)
    && c.buffered == CountReady(c.slots)
  }

  lemma {:induction false} CountReadyBound(slots: seq<Slot>)
    ensures CountReady(slots) <= |slots|
  {
    if slots != [] {
      CountReadyBound(slots[..|slots| - 1]);
    }
  }

  lemma {:induction false} CountReadySome(slots: seq<Slot>, i: nat)
    requires i < |slots| && slots[i].state.Ready?
    ensures CountReady(slots) > 0
  {
    if i < |slots| - 1 {
      CountReadySome(slots[..|slots| - 1], i);
    }
  }

  /** Every state a run can leave the buffer in, between calls, is such a buffer. */
  lemma ReachableIsQuiet(m: Machine)
    requires Inv(m) && m.producer.Resting? && m.consumer.Idle? && Divides(m.N(), TWO16)
    ensures Quiet(m.core)
  {
    hide Contents, Progress, Accounting, Window, Ordered, FirstElected;
    CountReadyBound(m.core.slots);
    DivisorIsSmall(m.N(), TWO16);
  }

  /** What `rounds` rounds of the consumer hand out, and where they leave the buffer. */
  function Rounds(c: Core, capacity: nat, rounds: nat): (r: (Core, seq<Delivery>))
    requires c.Valid()
    ensures r.0.Valid()
    decreases rounds
  {
    if rounds == 0 then (c, [])
    else
      var (next, handed) := c.AfterRound(capacity);
      var (last, later) := Rounds(next, capacity, rounds - 1);
      (last, (if handed.Some? then [handed.value] else []) + later)
  }

  /** One round empties the expected slot and, unless nothing is left, moves on. */
  lemma RoundProgress(c: Core, capacity: nat)
    requires Quiet(c) && c.started
    ensures var r := c.AfterRound(capacity).0;
            var i := c.Home(c.expected);
            && Quiet(r) && r.started && |r.slots| == |c.slots|
            && r.slots == c.slots[i := r.slots[i]]
            && r.slots[i].state.Empty?
            && (r.buffered == 0 || r.expected == Next16(c.expected))
            && r.buffered <= c.buffered
  {
    var i := c.Home(c.expected);
    var r := c.AfterRound(capacity).0;
    CountReadyBound(c.slots);
    if c.slots[i].state.Ready? {
      CountReadySome(c.slots, i);
      CountReadyUpdate(c.slots, i, c.slots[i].(state := Empty));
    } else {
      assert c.slots[i := r.slots[i]] == c.slots;
    }
  }

  lemma NothingLeft(c: Core)
    requires Quiet(c) && c.buffered == 0
    ensures forall i | 0 <= i < |c.slots| :: c.slots[i].state.Empty?
  {
    forall i | 0 <= i < |c.slots|
      ensures c.slots[i].state.Empty?
    {
      if c.slots[i].state.Ready? {
        CountReadySome(c.slots, i);
      }
    }
  }

  ghost predicate Swept(c: Core, from: nat, upto: nat)
    requires |c.slots| > 0
  {
    forall j | from <= j < upto :: c.slots[Mod(j, |c.slots|)].state.Empty?
  }

  lemma SweptAround(c: Core, from: nat)
    requires Quiet(c) && Swept(c, from, from + |c.slots|)
    ensures c.buffered == 0
  {
    var n := |c.slots|;
    forall s | 0 <= s < n
      ensures !c.slots[s].state.Ready?
    {
      var i := RemainderReached(from, s, n);
      assert c.slots[Mod(from + i, n)].state.Empty?;
    }
    CountReadyNone(c.slots);
  }

  lemma SweptFurther(c: Core, r: Core, from: nat, position: nat)
    requires |c.slots| == |r.slots| > 0 && Divides(|c.slots|, TWO16) && from <= position
    requires Swept(c, from, position)
    requires var i := Mod(position % TWO16, |c.slots|);
             r.slots == c.slots[i := r.slots[i]] && r.slots[i].state.Empty?
    ensures Swept(r, from, position + 1)
  {
    WrapKeepsMod(position, TWO16, |c.slots|);
    forall j | from <= j < position + 1
      ensures r.slots[Mod(j, |r.slots|)].state.Empty?
    {
    }
  }

  /** A started buffer that is empty, or swept from `from` up to the expected position. */
  ghost predicate Draining(c: Core, from: nat, position: nat) {
    && Quiet(c) && c.started && from <= position
    && (c.buffered == 0 || (c.expected == position % TWO16 && Swept(c, from, position)))
  }

  lemma QuietDivides(c: Core)
    requires Quiet(c)
    ensures c.Valid() && |c.slots| > 0 && Divides(|c.slots|, TWO16)
  {
  }

  lemma DrainOne(c: Core, capacity: nat, from: nat, position: nat)
    requires c.Valid() && Draining(c, from, position)
    ensures Draining(c.AfterRound(capacity).0, from, position + 1)
    ensures |c.AfterRound(capacity).0.slots| == |c.slots|
  {
    hide Quiet, Swept, Core.AfterRound, Core.Valid, Divides, Mod;
    RoundProgress(c, capacity);
    QuietDivides(c);
    var r := c.AfterRound(capacity).0;
    assert r.buffered != 0 ==> c.buffered != 0;
    if r.buffered != 0 {
      SweptFurther(c, r, from, position);
    }
  }

  lemma {:induction false} DrainFrom(c: Core, capacity: nat, from: nat, position: nat)
    requires c.Valid() && Draining(c, from, position) && position <= from + |c.slots|
    ensures var r := Rounds(c, capacity, from + |c.slots| - position).0;
            Quiet(r) && r.buffered == 0 && |r.slots| == |c.slots|
    decreases from + |c.slots| - position
  {
    if position == from + |c.slots| {
      if c.buffered != 0 {
        SweptAround(c, from);
      }
    } else {
      hide Core.AfterRound, Draining, Core.Valid;
      DrainOne(c, capacity, from, position);
      DrainFrom(c.AfterRound(capacity).0, capacity, from, position + 1);
    }
  }

  /** Without new pushes, `SlotCount` rounds empty any started buffer, whatever stale or
      oversized packets it holds. */
  lemma Drain(c: Core, capacity: nat)
    requires Quiet(c) && c.started
    ensures var r := Rounds(c, capacity, |c.slots|).0;
            && r.buffered == 0
            && |r.slots| == |c.slots|
            && forall i | 0 <= i < |r.slots| :: r.slots[i].state.Empty?
  {
    DrainFrom(c, capacity, c.expected, c.expected);
    NothingLeft(Rounds(c, capacity, |c.slots|).0);
  }

  // ----- A window of packets -----

  /** The buffer holds exactly the packets of `w`, a map from window offset to payload. */
  ghost predicate Holds(c: Core, base: u16, w: map<nat, seq<u8>>) {
    && c.Valid()
    && Divides(|c.slots|, TWO16)
    && c.buffered == |w|
    && (forall o | o in w :: o < |c.slots|)
    && forall o: nat | o < |c.slots| :: HoldsAt(c, base, w, o)
  }

  ghost predicate HoldsAt(c: Core, base: u16, w: map<nat, seq<u8>>, o: nat)
    requires |c.slots| > 0
  {
    var slot := c.slots[Mod(base + o, |c.slots|)];
    if o in w then
      && slot.state.Ready?
      && slot.sequence == (base + o) % TWO16
      && slot.length == |w[o]| <= |slot.payload|
      && slot.payload[..slot.length] == w[o]
    else slot.state.Empty?
  }

  /** Changing the slot of offset `o` leaves every other offset as it was. */
  lemma OthersHeld(c: Core, r: Core, base: u16, w: map<nat, seq<u8>>, v: map<nat, seq<u8>>, o: nat)
    requires |c.slots| > 0 && o < |c.slots| && |r.slots| == |c.slots|
    requires forall i | 0 <= i < |c.slots| && i != Mod(base + o, |c.slots|) :: r.slots[i] == c.slots[i]
    requires v.Keys - {o} == w.Keys - {o}
    requires forall p | p in v && p != o :: p in w && v[p] == w[p]
    requires forall p: nat | p < |c.slots| :: HoldsAt(c, base, w, p)
    ensures forall p: nat | p < |c.slots| && p != o :: HoldsAt(r, base, v, p)
  {
    forall p: nat | p < |c.slots| && p != o
      ensures HoldsAt(r, base, v, p)
    {
      NearbyDiffer(base + p, base + o, |c.slots|);
      assert HoldsAt(c, base, w, p);
      assert p in v <==> p in v.Keys - {o};
      assert p in w <==> p in w.Keys - {o};
    }
  }

  /** The buffer with one more packet stored at offset `o`; the start rule aside. */
  lemma PushStores(c: Core, base: u16, w: map<nat, seq<u8>>, o: nat, payload: seq<u8>)
    requires Holds(c, base, w) && o < |c.slots| && o !in w && |payload| <= c.maxPayload && |w| <= |c.slots|
    ensures var (r, ok) := c.AfterPush((base + o) % TWO16, payload);
            var i := Mod(base + o, |c.slots|);
            && ok && r.buffered == c.buffered + 1
            && |r.slots| == |c.slots| && (forall j | 0 <= j < |c.slots| && j != i :: r.slots[j] == c.slots[j])
            && HoldsAt(r, base, w[o := payload], o)
  {
    DivisorIsSmall(|c.slots|, TWO16);
    WrapKeepsMod(base + o, TWO16, |c.slots|);
    assert HoldsAt(c, base, w, o);
    hide Divides, Mod, Holds;
    assert Overwrite(c.slots[Mod(base + o, |c.slots|)].payload, payload)[..|payload|] == payload;
  }

  lemma MoreEntries(w: map<nat, seq<u8>>, o: nat, payload: seq<u8>)
    requires o !in w
    ensures |w[o := payload]| == |w| + 1 && w[o := payload].Keys == w.Keys + {o}
  {
    assert w[o := payload].Keys == w.Keys + {o};
  }

  /** One packet of the window goes in: it is accepted and the others are undisturbed. */
  lemma PushIntoWindow(c: Core, base: u16, w: map<nat, seq<u8>>, o: nat, payload: seq<u8>)
    requires Holds(c, base, w) && o < |c.slots| && o !in w && |payload| <= c.maxPayload
    ensures var (r, ok) := c.AfterPush((base + o) % TWO16, payload);
            ok && Holds(r, base, w[o := payload]) && |w[o := payload]| == |w| + 1
  {
    WindowIsSmall(w, |c.slots|);
    PushStores(c, base, w, o, payload);
    MoreEntries(w, o, payload);
    hide Divides, Mod, HoldsAt, Core.AfterPush, Core.Valid;
    OthersHeld(c, c.AfterPush((base + o) % TWO16, payload).0, base, w, w[o := payload], o);
  }

  lemma WindowIsSmall(w: map<nat, seq<u8>>, n: nat)
    requires forall o | o in w :: o < n
    ensures |w| <= n
  {
    SubsetSize(w.Keys, UpTo(n));
  }

  lemma {:induction false} SubsetSize(a: set<nat>, b: set<nat>)
    requires a <= b
    ensures |a| <= |b|
    decreases a
  {
    if a != {} {
      var x :| x in a;
      SubsetSize(a - {x}, b - {x});
    }
  }

  /** A packet at an offset from the start of its window. */
  datatype Entry = Entry(offset: nat, payload: seq<u8>)

  /** The packets of a window, pushed in the order of `packets`. */
  function PushAll(c: Core, base: u16, packets: seq<Entry>): (r: (Core, bool))
    requires c.Valid()
    ensures r.0.Valid()
    decreases |packets|
  {
    if packets == [] then (c, true)
    else
      var last := packets[|packets| - 1];
      var (before, all) := PushAll(c, base, packets[..|packets| - 1]);
      var (after, ok) := before.AfterPush((base + last.offset) % TWO16, last.payload);
      (after, all && ok)
  }

  function WindowOf(packets: seq<Entry>): map<nat, seq<u8>> {
    if packets == [] then map[]
    else
      var last := packets[|packets| - 1];
      WindowOf(packets[..|packets| - 1])[last.offset := last.payload]
  }

  function Without(w: map<nat, seq<u8>>, k: nat): (r: map<nat, seq<u8>>)
    ensures r.Keys == w.Keys - {k} && forall o | o in r :: r[o] == w[o]
  {
    w - {k}
  }

  /** Pairwise different offsets below the slot count, the lowest one first. */
  ghost predicate IsWindow(slotCount: nat, maxPayload: nat, packets: seq<Entry>) {
    && (forall k | 0 <= k < |packets| :: packets[k].offset < slotCount && |packets[k].payload| <= maxPayload)
    && (forall j, k | 0 <= j < k < |packets| :: packets[j].offset != packets[k].offset)
    && (packets != [] ==> packets[0].offset == 0)
  }

  lemma {:induction false} NotInWindow(packets: seq<Entry>, o: nat)
    requires forall k | 0 <= k < |packets| :: packets[k].offset != o
    ensures o !in WindowOf(packets)
    decreases |packets|
  {
    if packets != [] {
      NotInWindow(packets[..|packets| - 1], o);
    }
  }

  lemma {:induction false} WindowFits(packets: seq<Entry>, bound: nat, maxPayload: nat)
    requires forall k | 0 <= k < |packets| :: packets[k].offset < bound && |packets[k].payload| <= maxPayload
    ensures forall o | o in WindowOf(packets) :: o < bound && |WindowOf(packets)[o]| <= maxPayload
    decreases |packets|
  {
    if packets != [] {
      WindowFits(packets[..|packets| - 1], bound, maxPayload);
    }
  }

  ghost predicate Unused(c: Core) {
    && c.Valid()
    && Divides(|c.slots|, TWO16)
    && (forall i | 0 <= i < |c.slots| :: c.slots[i].state.Empty?)
    && c.buffered == c.lost == 0 && !c.hasFirst && !c.started
  }

  /** The start rule of an accepted push. */
  lemma PushStarts(c: Core, sequence: u16, payload: seq<u8>)
    requires c.Valid() && c.AfterPush(sequence, payload).1
    ensures var r := c.AfterPush(sequence, payload).0;
            && |r.slots| == |c.slots| && r.maxPayload == c.maxPayload && r.target == c.target && r.lost == c.lost
            && (c.hasFirst ==> r.hasFirst && r.first == c.first)
            && (!c.started && !c.hasFirst ==> r.hasFirst && r.first == sequence)
            && (r.started <==> c.started || r.buffered >= c.target)
            && (c.started ==> r.expected == c.expected)
            && (!c.started && r.started ==> r.expected == r.first)
  {
  }

  lemma UnusedTakesNothing(c: Core, base: u16)
    requires Unused(c)
    ensures TookIn(c, c, base, map[])
  {
  }

  lemma HoldsKeepsValid(c: Core, base: u16, w: map<nat, seq<u8>>)
    requires Holds(c, base, w)
    ensures c.Valid() && Divides(|c.slots|, TWO16) && c.buffered == |w|
    ensures forall o | o in w :: o < |c.slots|
  {
  }

  /** `r` is `c` after taking in the packets of `w`, the first of them at offset 0. */
  ghost predicate TookIn(c: Core, r: Core, base: u16, w: map<nat, seq<u8>>) {
    && Holds(r, base, w)
    && |r.slots| == |c.slots| && r.maxPayload == c.maxPayload && r.target == c.target && r.lost == 0
    && (r.hasFirst <==> w != map[])
    && (w != map[] ==> r.first == base)
    && (r.started <==> |w| >= c.target)
    && (r.started ==> r.expected == base)
  }

  lemma TakeInOne(c: Core, r: Core, base: u16, w: map<nat, seq<u8>>, o: nat, payload: seq<u8>)
    requires c.Valid() && TookIn(c, r, base, w) && o < |c.slots| && o !in w && |payload| <= c.maxPayload
    requires w == map[] ==> o == 0
    ensures r.Valid()
    ensures var (n, ok) := r.AfterPush((base + o) % TWO16, payload);
            ok && TookIn(c, n, base, w[o := payload]) && |w[o := payload]| == |w| + 1
  {
    HoldsKeepsValid(r, base, w);
    hide Core.AfterPush, Holds;
    PushIntoWindow(r, base, w, o, payload);
    PushStarts(r, (base + o) % TWO16, payload);
    HoldsKeepsValid(r.AfterPush((base + o) % TWO16, payload).0, base, w[o := payload]);
    hide Core.Valid;
    assert w != map[] <==> |w| > 0;
  }

  lemma {:induction false} PushWindow(c: Core, base: u16, packets: seq<Entry>)
    requires c.Valid() && Unused(c) && IsWindow(|c.slots|, c.maxPayload, packets)
    ensures var (r, all) := PushAll(c, base, packets);
            all && TookIn(c, r, base, WindowOf(packets)) && |WindowOf(packets)| == |packets|
    decreases |packets|
  {
    hide Core.AfterPush, TookIn, Holds, Core.Valid;
    if packets == [] {
      UnusedTakesNothing(c, base);
    } else {
      var rest, last := packets[..|packets| - 1], packets[|packets| - 1];
      NotInWindow(rest, last.offset);
      hide Unused;
      PushWindow(c, base, rest);
      assert rest == [] ==> last.offset == 0;
      TakeInOne(c, PushAll(c, base, rest).0, base, WindowOf(rest), last.offset, last.payload);
    }
  }

  function Found(base: u16, w: map<nat, seq<u8>>, k: nat): seq<Delivery> {
    if k in w then [Delivery((base + k) % TWO16, w[k])] else []
  }

  /** The window from offset `k` on, in increasing order, as the consumer should see it. */
  function Listing(base: u16, w: map<nat, seq<u8>>, k: nat, upto: nat): seq<Delivery>
    decreases upto - k
  {
    if k >= upto then []
    else Found(base, w, k) + Listing(base, w, k + 1, upto)
  }

  function Missed(w: map<nat, seq<u8>>, k: nat): nat {
    if k in w || w == map[] then 0 else 1
  }

  /** Offsets missing below the highest one present. */
  function Gaps(w: map<nat, seq<u8>>, k: nat, upto: nat): nat
    decreases upto - k
  {
    if w == map[] || k >= upto then 0
    else if k in w then Gaps(Without(w, k), k + 1, upto)
    else 1 + Gaps(w, k + 1, upto)
  }

  lemma {:induction false} GapsExact(w: map<nat, seq<u8>>, k: nat, top: nat, upto: nat)
    requires top in w && top < upto && k <= top && forall o | o in w :: k <= o <= top
    ensures Gaps(w, k, upto) == top + 1 - k - |w|
    decreases upto - k
  {
    if k in w {
      assert Without(w, k).Keys == w.Keys - {k};
      if k < top {
        GapsExact(Without(w, k), k + 1, top, upto);
      } else {
        assert w.Keys == {k};
        assert Without(w, k) == map[];
      }
    } else {
      GapsExact(w, k + 1, top, upto);
    }
  }

  /** A started buffer holding a window whose packets all lie at offset `k` or above,
      with the consumer about to look for offset `k`. */
  ghost predicate Facing(c: Core, capacity: nat, base: u16, w: map<nat, seq<u8>>, k: nat) {
    && Holds(c, base, w) && c.started && k <= |c.slots| && c.lost <= k
    && (forall o | o in w :: k <= o && |w[o]| <= capacity)
    && (w != map[] ==> c.expected == (base + k) % TWO16)
  }

  lemma RoundInEmptyWindow(c: Core, capacity: nat, base: u16, k: nat)
    requires Holds(c, base, map[])
    ensures c.AfterRound(capacity) == (c, None)
  {
    var o := RemainderReached(base, c.Home(c.expected), |c.slots|);
    assert HoldsAt(c, base, map[], o);
  }

  lemma RoundAtGap(c: Core, capacity: nat, base: u16, w: map<nat, seq<u8>>, k: nat)
    requires Facing(c, capacity, base, w, k) && k < |c.slots| && k !in w && w != map[]
    ensures c.AfterRound(capacity) == (c.AfterSkip(), None)
  {
    WrapKeepsMod(base + k, TWO16, |c.slots|);
    assert HoldsAt(c, base, w, k);
    assert |w| > 0;
  }

  /** A round that finds the packet it expects. */
  lemma RoundPops(c: Core, capacity: nat, i: nat, next: u16)
    requires c.Valid() && c.started && i == c.Home(c.expected) && next == Next16(c.expected)
    requires c.slots[i].state.Ready? && c.slots[i].sequence == c.expected && c.slots[i].length <= capacity
    ensures var (r, handed) := c.AfterRound(capacity);
            && r == c.(slots := c.slots[i := c.slots[i].(state := Empty)], buffered := Dec64(c.buffered), expected := next)
            && handed == Some(Delivery(c.expected, c.slots[i].payload[..c.slots[i].length]))
  {
  }

  /** Taking the packet at `k` out of the window. */
  lemma TakeFromWindow(c: Core, base: u16, w: map<nat, seq<u8>>, k: nat, i: nat, expected: u16)
    requires Holds(c, base, w) && k in w && i == Mod(base + k, |c.slots|)
    ensures Holds(c.(slots := c.slots[i := c.slots[i].(state := Empty)], buffered := Dec64(c.buffered),
                     expected := expected), base, Without(w, k))
  {
    var r := c.(slots := c.slots[i := c.slots[i].(state := Empty)], buffered := Dec64(c.buffered),
                expected := expected);
    assert HoldsAt(c, base, w, k);
    assert HoldsAt(r, base, Without(w, k), k);
    assert |w| > 0 && |Without(w, k)| == |w| - 1;
    hide HoldsAt;
    OthersHeld(c, r, base, w, Without(w, k), k);
  }

  /** The buffer after the packet at offset `k` was handed out. */
  function HandedOut(c: Core, base: u16, k: nat): Core
    requires |c.slots| > 0
  {
    var i := Mod(base + k, |c.slots|);
    c.(slots := c.slots[i := c.slots[i].(state := Empty)], buffered := Dec64(c.buffered), expected := (base + k + 1) % TWO16)
  }

  lemma NextPosition(position: nat)
    ensures Next16(position % TWO16) == (position + 1) % TWO16
  {
  }

  lemma RoundAtPacket(c: Core, capacity: nat, base: u16, w: map<nat, seq<u8>>, k: nat)
    requires c.Valid() && Facing(c, capacity, base, w, k) && k < |c.slots| && k in w
    ensures c.AfterRound(capacity) == (HandedOut(c, base, k), Some(Delivery((base + k) % TWO16, w[k])))
  {
    PacketAt(c, capacity, base, w, k);
    NextPosition(base + k);
    hide Core.AfterRound, Core.Valid, Core.Home, Facing, Holds, Mod, Next16;
    RoundPops(c, capacity, Mod(base + k, |c.slots|), (base + k + 1) % TWO16);
  }

  lemma PacketAt(c: Core, capacity: nat, base: u16, w: map<nat, seq<u8>>, k: nat)
    requires Facing(c, capacity, base, w, k) && k < |c.slots| && k in w
    ensures Holds(c, base, w) && c.started && c.expected == (base + k) % TWO16
    ensures var i := Mod(base + k, |c.slots|);
            var slot := c.slots[i];
            && i == c.Home(c.expected)
            && slot.state.Ready? && slot.sequence == c.expected
            && slot.length <= capacity && slot.length <= |slot.payload| && slot.payload[..slot.length] == w[k]
  {
    WrapKeepsMod(base + k, TWO16, |c.slots|);
    assert HoldsAt(c, base, w, k);
  }

  /** What a round at offset `k` leaves and hands out. */
  ghost predicate RoundDoes(c: Core, capacity: nat, base: u16, w: map<nat, seq<u8>>, k: nat,
                            r: Core, handed: Option<Delivery>)
  {
    && Facing(r, capacity, base, Without(w, k), k + 1) && |r.slots| == |c.slots|
    && (if handed.Some? then [handed.value] else []) == Found(base, w, k)
    && r.lost == c.lost + Missed(w, k)
  }

  lemma FacingSays(c: Core, capacity: nat, base: u16, w: map<nat, seq<u8>>, k: nat)
    requires Facing(c, capacity, base, w, k)
    ensures Holds(c, base, w) && c.started && c.lost <= k
    ensures |c.slots| <= TWO16 && k <= |c.slots|
  {
    DivisorIsSmall(|c.slots|, TWO16);
  }

  lemma RoundDoesNothing(c: Core, capacity: nat, base: u16, k: nat)
    requires c.Valid() && Facing(c, capacity, base, map[], k) && k < |c.slots|
    ensures RoundDoes(c, capacity, base, map[], k, c, None)
  {
    hide Holds, Core.Valid;
    assert Without(map[], k) == map[];
  }

  lemma RoundHandsOut(c: Core, capacity: nat, base: u16, w: map<nat, seq<u8>>, k: nat)
    requires c.Valid() && Facing(c, capacity, base, w, k) && k < |c.slots| && k in w
    ensures RoundDoes(c, capacity, base, w, k, HandedOut(c, base, k), Some(Delivery((base + k) % TWO16, w[k])))
  {
    TakeFromWindow(c, base, w, k, Mod(base + k, |c.slots|), (base + k + 1) % TWO16);
    hide Holds, Core.Valid, Mod;
  }

  lemma RoundSkips(c: Core, capacity: nat, base: u16, w: map<nat, seq<u8>>, k: nat)
    requires c.Valid() && Facing(c, capacity, base, w, k) && k < |c.slots| && k !in w && w != map[]
    ensures RoundDoes(c, capacity, base, w, k, c.AfterSkip(), None)
  {
    SkipKeepsWindow(c, base, w);
    NextPosition(base + k);
    FacingSays(c, capacity, base, w, k);
    assert Without(w, k) == w;
    hide Holds, Core.Valid, Next16;
  }

  /** One round hands out the packet at offset `k`, or counts it lost. */
  lemma RoundInWindow(c: Core, capacity: nat, base: u16, w: map<nat, seq<u8>>, k: nat)
    requires c.Valid() && Facing(c, capacity, base, w, k) && k < |c.slots|
    ensures var (r, handed) := c.AfterRound(capacity); RoundDoes(c, capacity, base, w, k, r, handed)
  {
    hide *;
    FacingSays(c, capacity, base, w, k);
    if w == map[] {
      RoundInEmptyWindow(c, capacity, base, k);
      RoundDoesNothing(c, capacity, base, k);
    } else if k in w {
      RoundAtPacket(c, capacity, base, w, k);
      RoundHandsOut(c, capacity, base, w, k);
    } else {
      RoundAtGap(c, capacity, base, w, k);
      RoundSkips(c, capacity, base, w, k);
    }
  }

  lemma SkipKeepsWindow(c: Core, base: u16, w: map<nat, seq<u8>>)
    requires Holds(c, base, w)
    ensures Holds(c.AfterSkip(), base, w)
  {
    forall p: nat | p < |c.slots| ensures HoldsAt(c.AfterSkip(), base, w, p) {
      assert HoldsAt(c, base, w, p);
    }
  }

  lemma {:induction false} ConsumeWindow(c: Core, capacity: nat, base: u16, w: map<nat, seq<u8>>, k: nat)
    requires c.Valid() && k <= |c.slots| && Facing(c, capacity, base, w, k)
    ensures Rounds(c, capacity, |c.slots| - k).1 == Listing(base, w, k, |c.slots|)
    ensures Rounds(c, capacity, |c.slots| - k).0.lost == c.lost + Gaps(w, k, |c.slots|)
    decreases |c.slots| - k
  {
    hide *;
    if k < |c.slots| {
      RoundInWindow(c, capacity, base, w, k);
      RoundLeaves(c, capacity, base, w, k);
      RoundsStep(c, capacity, |c.slots| - k);
      GapsStep(w, k, |c.slots|);
      ListingStep(base, w, k, |c.slots|);
      ConsumeWindow(c.AfterRound(capacity).0, capacity, base, Without(w, k), k + 1);
    } else {
      NoRounds(c, capacity, base, w);
    }
  }

  lemma RoundLeaves(c: Core, capacity: nat, base: u16, w: map<nat, seq<u8>>, k: nat)
    requires c.Valid()
    requires var (r, handed) := c.AfterRound(capacity); RoundDoes(c, capacity, base, w, k, r, handed)
    ensures var (r, handed) := c.AfterRound(capacity);
            && Facing(r, capacity, base, Without(w, k), k + 1) && |r.slots| == |c.slots|
            && (if handed.Some? then [handed.value] else []) == Found(base, w, k)
            && r.lost == c.lost + Missed(w, k)
  {
    hide Facing, Core.AfterRound, Core.Valid;
  }

  lemma NoRounds(c: Core, capacity: nat, base: u16, w: map<nat, seq<u8>>)
    requires c.Valid()
    ensures Rounds(c, capacity, 0) == (c, []) && Listing(base, w, |c.slots|, |c.slots|) == []
    ensures Gaps(w, |c.slots|, |c.slots|) == 0
  {
  }

  lemma RoundsStep(c: Core, capacity: nat, rounds: nat)
    requires c.Valid() && rounds > 0
    ensures var (next, handed) := c.AfterRound(capacity);
            && Rounds(c, capacity, rounds).0 == Rounds(next, capacity, rounds - 1).0
            && Rounds(c, capacity, rounds).1
               == (if handed.Some? then [handed.value] else []) + Rounds(next, capacity, rounds - 1).1
  {
  }

  lemma ListingStep(base: u16, w: map<nat, seq<u8>>, k: nat, upto: nat)
    requires k < upto
    ensures Listing(base, w, k, upto)
            == Found(base, w, k) + Listing(base, Without(w, k), k + 1, upto)
  {
    ListingIgnores(base, w, k, k + 1, upto);
  }

  lemma GapsStep(w: map<nat, seq<u8>>, k: nat, upto: nat)
    requires k < upto
    ensures Gaps(w, k, upto) == Missed(w, k) + Gaps(Without(w, k), k + 1, upto)
  {
    if k !in w {
      assert Without(w, k) == w;
    }
  }

  lemma {:induction false} ListingIgnores(base: u16, w: map<nat, seq<u8>>, gone: nat, k: nat, upto: nat)
    requires gone < k
    ensures Listing(base, Without(w, gone), k, upto) == Listing(base, w, k, upto)
    decreases upto - k
  {
    if k < upto {
      ListingIgnores(base, w, gone, k + 1, upto);
    }
  }

  lemma FullWindowFaces(c: Core, full: Core, capacity: nat, base: u16, w: map<nat, seq<u8>>)
    requires TookIn(c, full, base, w) && |w| >= c.target
    requires forall o | o in w :: |w[o]| <= capacity
    ensures full.Valid() && Facing(full, capacity, base, w, 0) && |full.slots| == |c.slots| && full.lost == 0
  {
  }

  /** Packets of one window, lowest first and enough of them to start, are all accepted
      and come out in increasing order, whatever order they were pushed in; the loss
      counter ends at the number of offsets missing below the highest one. */
  lemma WindowDelivered(c: Core, base: u16, packets: seq<Entry>, top: nat)
    requires c.Valid() && Unused(c) && IsWindow(|c.slots|, c.maxPayload, packets) && |packets| >= c.target
    requires top < |packets| && forall k | 0 <= k < |packets| :: packets[k].offset <= packets[top].offset
    ensures var (full, all) := PushAll(c, base, packets);
            && all
            && Rounds(full, c.maxPayload, |c.slots|).1 == Listing(base, WindowOf(packets), 0, |c.slots|)
            && Rounds(full, c.maxPayload, |c.slots|).0.lost == packets[top].offset + 1 - |packets|
  {
    hide Core.AfterPush, Core.AfterRound, Core.Valid, TookIn, Holds, Facing, Unused;
    var w := WindowOf(packets);
    PushWindow(c, base, packets);
    WindowFits(packets, |c.slots|, c.maxPayload);
    WindowFits(packets, packets[top].offset + 1, c.maxPayload);
    InWindow(packets, top);
    var full := PushAll(c, base, packets).0;
    FullWindowFaces(c, full, c.maxPayload, base, w);
    ConsumeWindow(full, c.maxPayload, base, w, 0);
    GapsExact(w, 0, packets[top].offset, |c.slots|);
  }

  lemma {:induction false} InWindow(packets: seq<Entry>, k: nat)
    requires k < |packets| && forall i, j | 0 <= i < j < |packets| :: packets[i].offset != packets[j].offset
    ensures packets[k].offset in WindowOf(packets) && WindowOf(packets)[packets[k].offset] == packets[k].payload
    decreases |packets|
  {
    if k < |packets| - 1 {
      InWindow(packets[..|packets| - 1], k);
    }
  }

  /** The offsets present from `k` on. */
  function Offsets(w: map<nat, seq<u8>>, k: nat, upto: nat): seq<nat>
    decreases upto - k
  {
    if k >= upto then [] else (if k in w then [k] else []) + Offsets(w, k + 1, upto)
  }

  lemma {:induction false} OffsetsArePresent(w: map<nat, seq<u8>>, k: nat, upto: nat, i: nat)
    requires i < |Offsets(w, k, upto)|
    ensures k <= Offsets(w, k, upto)[i] < upto && Offsets(w, k, upto)[i] in w
    decreases upto - k
  {
    var tail := Offsets(w, k + 1, upto);
    if k in w && i > 0 {
      assert Offsets(w, k, upto)[i] == tail[i - 1];
      OffsetsArePresent(w, k + 1, upto, i - 1);
    } else if k !in w {
      assert Offsets(w, k, upto) == tail;
      OffsetsArePresent(w, k + 1, upto, i);
    }
  }

  lemma {:induction false} OffsetsIncrease(w: map<nat, seq<u8>>, k: nat, upto: nat, i: nat, j: nat)
    requires i < j < |Offsets(w, k, upto)|
    ensures Offsets(w, k, upto)[i] < Offsets(w, k, upto)[j]
    decreases upto - k
  {
    var tail := Offsets(w, k + 1, upto);
    if k !in w {
      assert Offsets(w, k, upto) == tail;
      OffsetsIncrease(w, k + 1, upto, i, j);
    } else {
      assert Offsets(w, k, upto) == [k] + tail;
      if i == 0 {
        OffsetsArePresent(w, k + 1, upto, j - 1);
      } else {
        OffsetsIncrease(w, k + 1, upto, i - 1, j - 1);
      }
    }
  }

  lemma {:induction false} OffsetsComplete(w: map<nat, seq<u8>>, k: nat, upto: nat)
    requires forall o | o in w :: k <= o < upto
    ensures |Offsets(w, k, upto)| == |w|
    decreases upto - k
  {
    if k < upto {
      OffsetsComplete(Without(w, k), k + 1, upto);
      OffsetsIgnore(w, k, k + 1, upto);
    } else {
      assert w.Keys == {};
    }
  }

  lemma {:induction false} OffsetsIgnore(w: map<nat, seq<u8>>, gone: nat, k: nat, upto: nat)
    requires gone < k
    ensures Offsets(Without(w, gone), k, upto) == Offsets(w, k, upto)
    decreases upto - k
  {
    if k < upto {
      OffsetsIgnore(w, gone, k + 1, upto);
    }
  }

  lemma {:induction false} ListingAt(base: u16, w: map<nat, seq<u8>>, k: nat, upto: nat, i: nat)
    requires i < |Offsets(w, k, upto)|
    ensures |Listing(base, w, k, upto)| == |Offsets(w, k, upto)| && Offsets(w, k, upto)[i] in w
    ensures var o := Offsets(w, k, upto)[i];
            Listing(base, w, k, upto)[i] == Delivery((base + o) % TWO16, w[o])
    decreases upto - k
  {
    ListingLength(base, w, k, upto);
    if k in w && i > 0 {
      ListingAt(base, w, k + 1, upto, i - 1);
    } else if k !in w {
      ListingAt(base, w, k + 1, upto, i);
    }
  }

  lemma {:induction false} ListingLength(base: u16, w: map<nat, seq<u8>>, k: nat, upto: nat)
    ensures |Listing(base, w, k, upto)| == |Offsets(w, k, upto)|
    decreases upto - k
  {
    if k < upto {
      ListingLength(base, w, k + 1, upto);
    }
  }

  /** The listing is what it should be: every packet of the window, once, at increasing
      offsets. */
  lemma ListingIsTheWindow(base: u16, w: map<nat, seq<u8>>, upto: nat)
    requires forall o | o in w :: o < upto
    ensures var at := Offsets(w, 0, upto);
            && |Listing(base, w, 0, upto)| == |at| == |w|
            && (forall i | 0 <= i < |at| ::
                  at[i] in w && Listing(base, w, 0, upto)[i] == Delivery((base + at[i]) % TWO16, w[at[i]]))
            && (forall i, j | 0 <= i < j < |at| :: at[i] < at[j])
  {
    OffsetsComplete(w, 0, upto);
    ListingLength(base, w, 0, upto);
    hide Offsets, Listing;
    var at := Offsets(w, 0, upto);
    forall i | 0 <= i < |at|
      ensures at[i] in w && Listing(base, w, 0, upto)[i] == Delivery((base + at[i]) % TWO16, w[at[i]])
    {
      ListingAt(base, w, 0, upto, i);
    }
    forall i, j | 0 <= i < j < |at|
      ensures at[i] < at[j]
    {
      OffsetsIncrease(w, 0, upto, i, j);
    }
  }

  // ----- Accepted and refused -----

  /** Any packets pushed one after the other, and how many were accepted. */
  function PushEach(c: Core, packets: seq<Delivery>): (r: (Core, nat))
    requires c.Valid()
    ensures r.0.Valid() && r.1 <= |packets|
    decreases |packets|
  {
    if packets == [] then (c, 0)
    else
      var last := packets[|packets| - 1];
      var (before, n) := PushEach(c, packets[..|packets| - 1]);
      var (after, ok) := before.AfterPush(last.sequence, last.payload);
      (after, if ok then n + 1 else n)
  }

  lemma OnePush(c: Core, sequence: u16, payload: seq<u8>)
    requires c.Valid()
    ensures var (r, ok) := c.AfterPush(sequence, payload);
            && r.buffered == (if ok then Inc64(c.buffered) else c.buffered)
            && r.dropped == (if ok then c.dropped else Inc64(c.dropped))
            && r.lost == c.lost
  {
    hide Inc64;
  }

  /** Every packet pushed is counted once: as buffered or as dropped. */
  lemma {:induction false} PushesAddUp(c: Core, packets: seq<Delivery>)
    requires c.Valid()
    ensures var (r, n) := PushEach(c, packets);
            && r.buffered == (c.buffered + n) % TWO64
            && r.dropped == (c.dropped + (|packets| - n)) % TWO64
            && r.lost == c.lost
    decreases |packets|
  {
    if packets != [] {
      var last := packets[|packets| - 1];
      var (before, n) := PushEach(c, packets[..|packets| - 1]);
      PushesAddUp(c, packets[..|packets| - 1]);
      OnePush(before, last.sequence, last.payload);
      hide Core.AfterPush;
      CountOne(c.buffered + n, before.buffered);
      CountOne(c.dropped + (|packets| - 1 - n), before.dropped);
      hide Inc64;
    }
  }

  lemma CountOne(n: int, x: u64)
    requires x == n % TWO64
    ensures Inc64(x) == (n + 1) % TWO64
  {
  }

  /** A reset gives back an unused buffer whose counters start over, with the same slots,
      sizes and target. */
  lemma ResetIsUnused(c: Core)
    requires c.Valid() && Divides(|c.slots|, TWO16)
    ensures var r := c.AfterReset();
            && Unused(r) && r.dropped == 0
            && |r.slots| == |c.slots| && r.maxPayload == c.maxPayload && r.target == c.target
  {
  }
}
