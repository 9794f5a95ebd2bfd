/** The sequence lock around one slot of the session directory
    (Core/SessionDirectory.cpp): one writer, one reader, one atomic access per step,
    sequentially consistent. */
module SessionSlot {
  import opened Common

  // ----- Layout: one cell per atomic, in the order the reader loads them -----

  const NAME: int := 1
  const ORIGIN: int := 97
  const SOURCE: int := 113
  const MULTICAST: int := 129
  const PORT: int := 145
  const CELLS: int := 152

  /** The cell loaded after cell `p` held `value`: a text is read up to its first NUL. */
  function NextCell(p: nat, value: int): (n: nat)
    ensures n > p
  {
    if value != 0 then p + 1
    else if NAME <= p < ORIGIN then ORIGIN
    else if ORIGIN <= p < SOURCE then SOURCE
    else if SOURCE <= p < MULTICAST then MULTICAST
    else if MULTICAST <= p < PORT then PORT
    else p + 1
  }

  /** All values a reader sees when it scans `cells` from `p`; the fields of the
      snapshot are cut out of this sequence. */
  function Scan(cells: seq<int>, p: nat): seq<int>
    requires |cells| == CELLS
    decreases CELLS - p
  {
    if p >= CELLS then [] else [cells[p]] + Scan(cells, NextCell(p, cells[p]))
  }

  // ----- The two threads -----

  datatype Write = Upsert(cells: seq<int>) | Erase

  /** Named after the access performed next. */
  datatype Writer =
    | Resting
    | Deactivating(write: Write)
    | Filling(write: Write, pending: set<nat>)
    | Activating(write: Write)
    | Closing(write: Write)

  /** `begun` is the number of revision bumps when `before` was loaded. */
  datatype Reader =
    | LoadingRevision(attempt: nat)
    | LoadingActive(attempt: nat, before: u32, begun: nat)
    | Loading(attempt: nat, before: u32, begun: nat, p: nat, seen: seq<int>)
    | LoadingActiveAgain(attempt: nat, seen: seq<int>, record: nat)
    | Returned(seen: seq<int>, record: nat)
    | GaveUp

  /** `bumps`, `log` and `overrun` are history: the revision without its 32-bit wrap, the
      completed upserts, and whether some read spanned 2^32 bumps. */
  datatype Slot = Slot(
    revision: u32,
    active: bool,
    cells: seq<int>,
    writer: Writer,
    reader: Reader,
    bumps: nat,
    log: seq<seq<int>>,
    overrun: bool)

  predicate Shaped(s: Slot) {
    && |s.cells| == CELLS
    && (!s.writer.Resting? && s.writer.write.Upsert? ==> |s.writer.write.cells| == CELLS)
    && (s.writer.Filling? ==> s.writer.write.Upsert?)
  }

  function AllCells(s: Slot): (r: set<nat>)
    ensures forall p: nat :: p in r <==> p < |s.cells|
  {
    UpTo(|s.cells|)
  }

  function Bump(s: Slot): Slot {
    s.(revision := (s.revision + 1) % TWO32, bumps := s.bumps + 1)
  }

  datatype Action =
    | Begin(write: Write)
    | FillCell(p: nat)
    | WriterMoves
    | ReaderMoves
    | ReadAgain

  /** The four attempts of `snapshotSlot`. */
  function Retry(attempt: nat): Reader {
    if attempt + 1 < 4 then LoadingRevision(attempt + 1) else GaveUp
  }

  function WriterStep(s: Slot): Slot {
    match s.writer
    case Resting => s
    case Deactivating(w) =>
      s.(active := false,
         writer := if w.Upsert? then Filling(w, AllCells(s)) else Activating(w))
    case Filling(w, pending) => if pending == {} then s.(writer := Activating(w)) else s
    case Activating(w) => s.(active := w.Upsert?, writer := Closing(w))
    case Closing(w) =>
      Bump(s).(writer := Resting, log := if w.Upsert? then s.log + [w.cells] else s.log)
  }

  function ReaderStep(s: Slot): Slot
    requires Shaped(s)
  {
    match s.reader
    case LoadingRevision(n) =>
      if s.revision % 2 == 0 then s.(reader := LoadingActive(n, s.revision, s.bumps))
      else s.(reader := Retry(n))
    case LoadingActive(n, before, begun) =>
      s.(reader := if s.active then Loading(n, before, begun, 0, []) else Retry(n))
    case Loading(n, before, begun, p, seen) =>
      if p < CELLS then
        s.(reader := Loading(n, before, begun, NextCell(p, s.cells[p]), seen + [s.cells[p]]))
      else
        s.(overrun := s.overrun || s.bumps - begun >= TWO32,
           reader := if s.revision == before && s.revision % 2 == 0
                     then LoadingActiveAgain(n, seen, if |s.log| > 0 then |s.log| - 1 else 0)
                     else Retry(n))
    case LoadingActiveAgain(n, seen, record) =>
      s.(reader := if s.active then Returned(seen, record) else Retry(n))
    case Returned(_, _) => s
    case GaveUp => s
  }

  /** The writer fills the cells in any order, which includes the order of the code. */
  function Apply(s: Slot, a: Action): (r: Slot)
    requires Shaped(s)
    ensures Shaped(r)
  {
    match a
    case Begin(w) =>
      if s.writer.Resting? && (w.Upsert? ==> |w.cells| == CELLS) then Bump(s).(writer := Deactivating(w)) else s
    case FillCell(p) =>
      if s.writer.Filling? && p in s.writer.pending && p < CELLS then
        s.(cells := s.cells[p := s.writer.write.cells[p]],
           writer := s.writer.(pending := s.writer.pending - {p}))
      else s
    case WriterMoves => WriterStep(s)
    case ReaderMoves => ReaderStep(s)
    case ReadAgain => if s.reader.Returned? || s.reader.GaveUp? then s.(reader := LoadingRevision(0)) else s
  }

  // ----- What holds from an even revision on -----

  ghost predicate Genuine(s: Slot, seen: seq<int>, record: nat) {
    record < |s.log| && |s.log[record]| == CELLS && seen == Scan(s.log[record], 0)
  }

  /** The revision is odd exactly while a write is open. */
  predicate Counted(s: Slot) {
    && s.revision == s.bumps % TWO32
    && (s.writer.Resting? <==> s.bumps % 2 == 0)
  }

  ghost predicate Stored(s: Slot)
    requires Shaped(s)
  {
    && (s.writer.Filling? ==> forall p: nat | p < CELLS && p !in s.writer.pending :: s.cells[p] == s.writer.write.cells[p])
    && (s.writer.Activating? || s.writer.Closing? ==> s.writer.write.Upsert? ==> s.cells == s.writer.write.cells)
    && (s.writer.Resting? && s.active ==> |s.log| > 0 && s.cells == s.log[|s.log| - 1])
    && (s.writer.Closing? ==> s.active == s.writer.write.Upsert?)
  }

  /** A reader whose revision is still current has seen a part of the stored record. */
  ghost predicate Looking(s: Slot)
    requires Shaped(s)
  {
    && (s.reader.LoadingActive? || s.reader.Loading? ==>
          && s.reader.begun <= s.bumps
          && s.reader.begun % 2 == 0
          && s.reader.before == s.reader.begun % TWO32)
    && (s.reader.Loading? && s.reader.begun == s.bumps ==>
          s.active && s.reader.seen + Scan(s.cells, s.reader.p) == Scan(s.cells, 0))
  }

  ghost predicate Accepted(s: Slot) {
    !s.overrun ==> (s.reader.LoadingActiveAgain? || s.reader.Returned? ==>
                      Genuine(s, s.reader.seen, s.reader.record))
  }

  ghost predicate Inv(s: Slot) {
    Shaped(s) && Counted(s) && Stored(s) && Looking(s) && Accepted(s)
  }

  lemma BumpCounts(s: Slot)
    ensures s.revision == s.bumps % TWO32 ==> Bump(s).revision == Bump(s).bumps % TWO32
    ensures Bump(s).bumps % 2 != s.bumps % 2
  {
  }

  lemma BeginKeepsInv(s: Slot, w: Write)
    requires Inv(s)
    ensures Inv(Apply(s, Begin(w)))
  {
    BumpCounts(s);
    OneBump(s);
    hide Bump, Scan, NextCell, AllCells;
  }

  lemma FillKeepsInv(s: Slot, p: nat)
    requires Inv(s)
    ensures Inv(Apply(s, FillCell(p)))
  {
  }

  lemma WriterKeepsInv(s: Slot)
    requires Inv(s)
    ensures Inv(WriterStep(s))
  {
    hide Scan, NextCell, AllCells;
    if s.writer.Closing? {
      WriterCloses(s);
    }
    if s.writer.Activating? || s.writer.Filling? {
      assert s.writer.Filling? && s.writer.pending == {} ==> s.cells == s.writer.write.cells;
    }
  }

  lemma WriterCloses(s: Slot)
    requires Inv(s) && s.writer.Closing?
    ensures Inv(WriterStep(s))
  {
    hide Scan, NextCell, AllCells, Bump;
    var r := WriterStep(s);
    BumpCounts(s);
    OneBump(s);
    assert Shaped(r) && Counted(r) && Stored(r);
    assert forall k | 0 <= k < |s.log| :: r.log[k] == s.log[k];
    assert Accepted(r);
  }

  lemma ReaderKeepsInv(s: Slot)
    requires Inv(s)
    ensures Inv(ReaderStep(s))
  {
    hide NextCell;
    if s.reader.Loading? && s.reader.p >= CELLS {
      SameRevision(s.reader.begun, s.bumps);
      assert s.reader.seen + [] == s.reader.seen;
    } else if s.reader.Loading? {
      ScanOn(s.cells, s.reader.p, s.reader.seen);
    }
  }

  lemma ScanOn(cells: seq<int>, p: nat, seen: seq<int>)
    requires |cells| == CELLS && p < CELLS
    ensures seen + [cells[p]] + Scan(cells, NextCell(p, cells[p])) == seen + Scan(cells, p)
  {
  }

  /** Equal revisions fewer than 2^32 bumps apart are the same revision. */
  lemma SameRevision(a: nat, b: nat)
    requires a <= b
    ensures a % TWO32 == b % TWO32 && b - a < TWO32 ==> a == b
  {
  }

  lemma StepKeepsInv(s: Slot, a: Action)
    requires Inv(s)
    ensures Inv(Apply(s, a))
  {
    match a
    case Begin(w) => BeginKeepsInv(s, w);
    case FillCell(p) => FillKeepsInv(s, p);
    case WriterMoves => WriterKeepsInv(s);
    case ReaderMoves => ReaderKeepsInv(s);
    case ReadAgain =>
  }

  /** The state after a schedule; every schedule is allowed. */
  function Run(s: Slot, actions: seq<Action>): (r: Slot)
    requires Shaped(s)
    ensures Shaped(r)
    decreases |actions|
  {
    if actions == [] then s else Run(Apply(s, actions[0]), actions[1..])
  }

  lemma {:induction false} RunKeepsInv(s: Slot, actions: seq<Action>)
    requires Inv(s)
    ensures Inv(Run(s, actions))
    decreases |actions|
  {
    if actions != [] {
      StepKeepsInv(s, actions[0]);
      hide Inv, Apply;
      RunKeepsInv(Apply(s, actions[0]), actions[1..]);
    }
  }

  lemma {:induction false} RunAppend(s: Slot, a: seq<Action>, b: seq<Action>)
    requires Shaped(s)
    ensures Run(s, a + b) == Run(Run(s, a), b)
    decreases |a|
  {
    hide Apply, Shaped;
    if a == [] {
      assert a + b == b;
    } else {
      assert (a + b)[1..] == a[1..] + b;
      RunAppend(Apply(s, a[0]), a[1..], b);
    }
  }

  /** An inactive slot between writes, as the engine leaves it when it starts. */
  ghost predicate Start(s: Slot) {
    && |s.cells| == CELLS && !s.active && s.writer.Resting? && s.reader == LoadingRevision(0)
    && s.revision == s.bumps % TWO32 && s.log == [] && !s.overrun
  }

  /** What every reader relies on: a returned snapshot is one whole record. */
  ghost predicate Sound(s: Slot) {
    !s.overrun && s.reader.Returned? ==>
      exists k :: 0 <= k < |s.log| && |s.log[k]| == CELLS && s.reader.seen == Scan(s.log[k], 0)
  }

  /** From an even revision, unless a read spans 2^31 writes, what it returns is the whole
      record of one completed upsert, for every interleaving with the writer. */
  lemma SnapshotIsOneRecord(start: Slot, actions: seq<Action>)
    requires Start(start) && start.revision % 2 == 0
    ensures Sound(Run(start, actions))
  {
    RunKeepsInv(start, actions);
    var r := Run(start, actions);
    assert Inv(r);
  }

  // ----- An odd revision, left by a writer that died inside its write -----

  function Fills(cells: seq<int>, k: nat): seq<Action>
    decreases |cells| - k
  {
    if k >= |cells| then [] else [FillCell(k)] + Fills(cells, k + 1)
  }

  lemma RunCons(s: Slot, a: Action, rest: seq<Action>)
    requires Shaped(s)
    ensures Run(s, [a] + rest) == Run(Apply(s, a), rest)
  {
  }

  lemma {:induction false} FillAll(s: Slot, k: nat)
    requires Shaped(s) && s.writer.Filling? && k <= CELLS
    requires forall p: nat :: p in s.writer.pending <==> k <= p < CELLS
    requires forall p | 0 <= p < k :: s.cells[p] == s.writer.write.cells[p]
    ensures Run(s, Fills(s.writer.write.cells, k))
            == s.(cells := s.writer.write.cells, writer := Filling(s.writer.write, {}))
    decreases CELLS - k
  {
    if k < CELLS {
      var n := Apply(s, FillCell(k));
      RunCons(s, FillCell(k), Fills(s.writer.write.cells, k + 1));
      hide Run, Apply;
      FillAll(n, k + 1);
    } else {
      assert s.writer.pending == {};
      assert s.cells == s.writer.write.cells;
    }
  }

  function Reads(cells: seq<int>, p: nat): seq<Action>
    requires |cells| == CELLS
    decreases CELLS - p
  {
    if p >= CELLS then [] else [ReaderMoves] + Reads(cells, NextCell(p, cells[p]))
  }

  lemma {:induction false} ReadAll(s: Slot) returns (q: nat)
    requires Shaped(s) && s.reader.Loading?
    ensures q >= CELLS
    ensures Run(s, Reads(s.cells, s.reader.p))
            == s.(reader := s.reader.(p := q, seen := s.reader.seen + Scan(s.cells, s.reader.p)))
    decreases CELLS - s.reader.p
  {
    var p := s.reader.p;
    if p < CELLS {
      var n := Apply(s, ReaderMoves);
      RunCons(s, ReaderMoves, Reads(s.cells, n.reader.p));
      ScanOn(s.cells, p, s.reader.seen);
      hide Run, Apply, Scan;
      q := ReadAll(n);
    } else {
      q := p;
      assert s.reader.seen + [] == s.reader.seen;
    }
  }

  /** A write from its opening bump to its closing one, which is left out. */
  function WriteUp(w: seq<int>): seq<Action> {
    [WriterMoves] + (Fills(w, 0) + ([WriterMoves] + ([WriterMoves] + [])))
  }

  lemma WriteAll(s: Slot)
    requires Shaped(s) && s.writer.Deactivating? && s.writer.write.Upsert?
    ensures Run(s, WriteUp(s.writer.write.cells))
            == s.(cells := s.writer.write.cells, active := true, writer := Closing(s.writer.write))
  {
    hide Run, Fills, AllCells;
    var w := s.writer.write;
    var fills, last := Fills(w.cells, 0), [WriterMoves] + ([WriterMoves] + []);
    var n := s.(active := false, writer := Filling(w, AllCells(s)));
    RunCons(s, WriterMoves, fills + last);
    RunAppend(n, fills, last);
    FillAll(n, 0);
    FinishWrite(n.(cells := w.cells, writer := Filling(w, {})));
  }

  lemma FinishWrite(s: Slot)
    requires Shaped(s) && s.writer.Filling? && s.writer.pending == {}
    ensures Run(s, [WriterMoves] + ([WriterMoves] + [])) == s.(active := true, writer := Closing(s.writer.write))
  {
    hide Run;
    RunCons(s, WriterMoves, [WriterMoves] + []);
    var q := s.(writer := Activating(s.writer.write));
    RunCons(q, WriterMoves, []);
    RunNothing(Apply(q, WriterMoves));
  }

  lemma RunNothing(s: Slot)
    requires Shaped(s)
    ensures Run(s, []) == s
  {
  }

  function WriteThenOpen(a: seq<int>, b: seq<int>): seq<Action> {
    [Begin(Upsert(a))] + (WriteUp(a) + ([WriterMoves] + ([Begin(Upsert(b))] + [])))
  }

  /** A whole write of `a` from a resting slot, then whatever comes next. */
  lemma PlayWrite(s: Slot, a: seq<int>, rest: seq<Action>)
    requires s.writer.Resting? && |a| == |s.cells| == CELLS && s.log == []
    ensures var r := Bump(Bump(s)).(cells := a, active := true, writer := Resting, log := [a]);
            Shaped(s) && Shaped(r)
            && Run(s, [Begin(Upsert(a))] + (WriteUp(a) + ([WriterMoves] + rest))) == Run(r, rest)
  {
    var s1 := Bump(s).(writer := Deactivating(Upsert(a)));
    var s2 := s1.(cells := a, active := true, writer := Closing(Upsert(a)));
    hide *;
    OneBump(s);
    OneBump(s2);
    OneBump(Bump(s));
    SameBump(s2, Bump(s));
    OpenWrite(s, a);
    WriterShaped(s2);
    CloseWrite(s2, a);
    WriteAll(s1);
    RunCons(s, Begin(Upsert(a)), WriteUp(a) + ([WriterMoves] + rest));
    RunAppend(s1, WriteUp(a), [WriterMoves] + rest);
    RunCons(s2, WriterMoves, rest);
    assert WriterStep(s2) == Bump(Bump(s)).(cells := a, active := true, writer := Resting, log := [a]);
  }

  /** The record `a` is written completely and the next write is opened. */
  lemma PlayWriteThenOpen(s: Slot, a: seq<int>, b: seq<int>)
    requires Start(s) && |a| == |b| == CELLS
    ensures Run(s, WriteThenOpen(a, b))
            == Bump(Bump(Bump(s))).(cells := a, active := true, writer := Deactivating(Upsert(b)), log := [a])
  {
    var open := [Begin(Upsert(b))] + [];
    var s3 := Bump(Bump(s)).(cells := a, active := true, writer := Resting, log := [a]);
    assert WriteThenOpen(a, b) == [Begin(Upsert(a))] + (WriteUp(a) + ([WriterMoves] + open));
    hide *;
    StartFacts(s);
    OneBump(s3);
    OneBump(Bump(Bump(s)));
    PlayWrite(s, a, open);
    OpenWrite(s3, b);
    RunCons(s3, Begin(Upsert(b)), []);
    RunNothing(Bump(s3).(writer := Deactivating(Upsert(b))));
    SameBump(s3, Bump(Bump(s)));
  }

  lemma SameBump(s: Slot, t: Slot)
    requires s.revision == t.revision
    ensures Bump(s).revision == Bump(t).revision
  {
  }

  lemma OpenWrite(s: Slot, a: seq<int>)
    requires s.writer.Resting? && |a| == |s.cells| == CELLS
    ensures Shaped(s) && Apply(s, Begin(Upsert(a))) == Bump(s).(writer := Deactivating(Upsert(a)))
    ensures Shaped(Bump(s).(writer := Deactivating(Upsert(a))))
  {
  }

  lemma WriterShaped(s: Slot)
    requires |s.cells| == CELLS && s.writer.Closing? && (s.writer.write.Upsert? ==> |s.writer.write.cells| == CELLS)
    ensures Shaped(s) && Shaped(WriterStep(s)) && Apply(s, WriterMoves) == WriterStep(s)
  {
  }

  lemma CloseWrite(s: Slot, a: seq<int>)
    requires s.writer == Closing(Upsert(a)) && s.log == []
    ensures WriterStep(s) == Bump(s).(writer := Resting, log := [a])
  {
  }

  function LookThenWrite(b: seq<int>): seq<Action>
    requires |b| == CELLS
  {
    ([ReaderMoves] + ([ReaderMoves] + ([ReaderMoves] + [])))
    + (WriteUp(b) + (Reads(b, 1) + ([ReaderMoves] + ([ReaderMoves] + []))))
  }

  /** The reader loads one cell; the writer runs up to its closing bump; the reader
      finishes. */
  lemma PlayLookThenWrite(s: Slot, b: seq<int>)
    requires Shaped(s) && s.reader == LoadingRevision(0) && s.revision % 2 == 0 && s.active && |s.log| == 1
    requires |b| == CELLS && s.writer == Deactivating(Upsert(b)) && !s.overrun
    ensures var r := Run(s, LookThenWrite(b));
            r.reader == Returned([s.cells[0]] + Scan(b, 1), 0) && r.log == s.log && !r.overrun
  {
    hide Run, Scan, Reads, WriteUp;
    var look := [ReaderMoves] + ([ReaderMoves] + ([ReaderMoves] + []));
    var close := [ReaderMoves] + ([ReaderMoves] + []);
    RunAppend(s, look, WriteUp(b) + (Reads(b, 1) + close));
    OpenRead(s);
    var s1 := s.(reader := Loading(0, s.revision, s.bumps, 1, [s.cells[0]]));
    RunAppend(s1, WriteUp(b), Reads(b, 1) + close);
    WriteAll(s1);
    var s2 := s1.(cells := b, active := true, writer := Closing(Upsert(b)));
    RunAppend(s2, Reads(b, 1), close);
    var q := ReadAll(s2);
    CloseRead(s2.(reader := Loading(0, s.revision, s.bumps, q, [s.cells[0]] + Scan(b, 1))));
  }

  /** After three bumps an odd revision is even. */
  lemma ThreeBumps(s: Slot)
    requires s.revision % 2 == 1
    ensures Bump(Bump(Bump(s))).revision % 2 == 0
  {
  }

  lemma OneBump(s: Slot)
    ensures Bump(s).revision % 2 != s.revision % 2
    ensures Bump(s) == s.(revision := Bump(s).revision, bumps := s.bumps + 1)
  {
  }

  /** From an odd revision the lock is inside out: the revision is even during a write,
      and a reader that looked before the writer cleared `active` returns a record that
      was never written: the first cell of one, the rest of the next. */
  lemma TornFromOddRevision(start: Slot, a: seq<int>, b: seq<int>) returns (actions: seq<Action>)
    requires Start(start) && start.revision % 2 == 1
    requires |a| == |b| == CELLS && a[0] != b[0] && a[NAME] != b[NAME]
    ensures !Sound(Run(start, actions))
  {
    PlayWriteThenOpen(start, a, b);
    var s := Bump(Bump(Bump(start))).(cells := a, active := true, writer := Deactivating(Upsert(b)), log := [a]);
    assert Shaped(s);
    ThreeBumps(start);
    hide *;
    OneBump(start);
    OneBump(Bump(start));
    OneBump(Bump(Bump(start)));
    StartFacts(start);
    actions := WriteThenOpen(a, b) + LookThenWrite(b);
    PlayLookThenWrite(s, b);
    RunAppend(start, WriteThenOpen(a, b), LookThenWrite(b));
    TornScan(a, b);
    NotSound(Run(start, actions), a);
  }

  lemma StartFacts(s: Slot)
    requires Start(s)
    ensures s.reader == LoadingRevision(0) && !s.overrun && s.writer.Resting? && s.log == [] && |s.cells| == CELLS
  {
  }

  lemma NotSound(s: Slot, a: seq<int>)
    requires !s.overrun && s.reader.Returned? && s.log == [a] && |a| == CELLS && s.reader.seen != Scan(a, 0)
    ensures !Sound(s)
  {
  }

  /** The lock is sound for every schedule exactly when the revision starts even. */
  lemma SoundIffEven(start: Slot)
    requires Start(start)
    ensures (forall actions :: Sound(Run(start, actions))) <==> start.revision % 2 == 0
  {
    if start.revision % 2 == 0 {
      forall actions ensures Sound(Run(start, actions)) {
        SnapshotIsOneRecord(start, actions);
      }
    } else {
      var a, b: seq<int> := seq(CELLS, _ => 1), seq(CELLS, _ => 2);
      var actions := TornFromOddRevision(start, a, b);
      assert !Sound(Run(start, actions));
    }
  }

  lemma OpenRead(s: Slot)
    requires Shaped(s) && s.reader == LoadingRevision(0) && s.revision % 2 == 0 && s.active
    ensures Run(s, [ReaderMoves] + ([ReaderMoves] + ([ReaderMoves] + [])))
            == s.(reader := Loading(0, s.revision, s.bumps, 1, [s.cells[0]]))
  {
    RunCons(s, ReaderMoves, [ReaderMoves] + ([ReaderMoves] + []));
    var t := Apply(s, ReaderMoves);
    RunCons(t, ReaderMoves, [ReaderMoves] + []);
    var u := Apply(t, ReaderMoves);
    RunCons(u, ReaderMoves, []);
    RunNothing(Apply(u, ReaderMoves));
    assert [] + [s.cells[0]] == [s.cells[0]];
  }

  lemma CloseRead(s: Slot)
    requires Shaped(s) && s.reader.Loading? && s.reader.p >= CELLS && s.active
    requires s.revision == s.reader.before && s.revision % 2 == 0 && s.bumps == s.reader.begun && |s.log| > 0
    ensures Run(s, [ReaderMoves] + ([ReaderMoves] + [])) == s.(reader := Returned(s.reader.seen, |s.log| - 1))
  {
    RunCons(s, ReaderMoves, [ReaderMoves] + []);
    var t := Apply(s, ReaderMoves);
    RunCons(t, ReaderMoves, []);
    RunNothing(Apply(t, ReaderMoves));
  }

  lemma TornScan(a: seq<int>, b: seq<int>)
    requires |a| == |b| == CELLS && a[0] != b[0] && a[NAME] != b[NAME]
    ensures [a[0]] + Scan(b, 1) != Scan(a, 0)
  {
    assert Scan(a, 0) == [a[0]] + Scan(a, 1);
    assert Scan(a, 1)[0] == a[1] && Scan(b, 1)[0] == b[1];
    assert ([a[0]] + Scan(b, 1))[1] == b[1];
  }

  // ----- One call alone -----

  function ReadUp(cells: seq<int>): seq<Action>
    requires |cells| == CELLS
  {
    [ReaderMoves] + ([ReaderMoves] + ([ReaderMoves] + (Reads(cells, 1) + ([ReaderMoves] + ([ReaderMoves] + [])))))
  }

  /** With no write open a reader obtains the record stored last, at its first attempt. */
  lemma ReadAlone(s: Slot)
    requires Inv(s) && s.writer.Resting? && s.active && s.reader == LoadingRevision(0)
    ensures Shaped(s) && |s.log| > 0
    ensures Run(s, ReadUp(s.cells)) == s.(reader := Returned(Scan(s.log[|s.log| - 1], 0), |s.log| - 1))
  {
    var opening := [ReaderMoves] + ([ReaderMoves] + ([ReaderMoves] + []));
    var closing := [ReaderMoves] + ([ReaderMoves] + []);
    var looking := s.(reader := Loading(0, s.revision, s.bumps, 1, [s.cells[0]]));
    RestIsEven(s);
    assert ReadUp(s.cells) == opening + (Reads(s.cells, 1) + closing);
    assert NextCell(0, s.cells[0]) == 1;
    ScanOn(s.cells, 0, []);
    assert [] + [s.cells[0]] + Scan(s.cells, 1) == [s.cells[0]] + Scan(s.cells, 1);
    assert [] + Scan(s.cells, 0) == Scan(s.cells, 0);
    hide Run, Scan, Reads, Inv, Apply;
    RunAppend(s, opening, Reads(s.cells, 1) + closing);
    OpenRead(s);
    RunAppend(looking, Reads(s.cells, 1), closing);
    var q := ReadAll(looking);
    var read := looking.(reader := looking.reader.(p := q, seen := [s.cells[0]] + Scan(s.cells, 1)));
    CloseRead(read);
  }

  lemma RestIsEven(s: Slot)
    requires Inv(s) && s.writer.Resting? && s.active
    ensures Shaped(s) && s.revision % 2 == 0 && |s.log| > 0 && s.cells == s.log[|s.log| - 1]
  {
  }

  function Tries(n: nat): seq<Action> {
    if n == 0 then [] else [ReaderMoves] + Tries(n - 1)
  }

  lemma {:induction false} OddTries(s: Slot, n: nat, attempt: nat)
    requires Shaped(s) && s.revision % 2 != 0 && s.reader == LoadingRevision(attempt) && attempt + n <= 4
    ensures Run(s, Tries(n)) == s.(reader := if n == 0 then s.reader else Retry(attempt + n - 1))
    decreases n
  {
    if n > 0 {
      RunCons(s, ReaderMoves, Tries(n - 1));
      if n > 1 {
        OddTries(s.(reader := Retry(attempt)), n - 1, attempt + 1);
      }
    }
  }

  /** While a write stays open a reader tries four times, and then gives up. */
  lemma FourTries(s: Slot, n: nat)
    requires Shaped(s) && s.revision % 2 != 0 && s.reader == LoadingRevision(0) && n <= 4
    ensures Run(s, Tries(n)).reader.GaveUp? <==> n == 4
  {
    OddTries(s, n, 0);
    hide Run;
  }

  function EraseUp(): seq<Action> {
    [Begin(Erase)] + ([WriterMoves] + ([WriterMoves] + ([WriterMoves] + [])))
  }

  /** An erase that runs alone leaves the cells, makes the slot inactive and the revision two
      higher. */
  lemma EraseAlone(s: Slot)
    requires Shaped(s) && s.writer.Resting?
    ensures Run(s, EraseUp()) == Bump(Bump(s)).(active := false)
  {
    hide Run, Bump, AllCells;
    OneBump(s);
    var begun := Bump(s).(writer := Deactivating(Erase));
    var off := begun.(active := false, writer := Activating(Erase));
    var closing := begun.(active := false, writer := Closing(Erase));
    RunCons(s, Begin(Erase), [WriterMoves] + ([WriterMoves] + ([WriterMoves] + [])));
    RunCons(begun, WriterMoves, [WriterMoves] + ([WriterMoves] + []));
    RunCons(off, WriterMoves, [WriterMoves] + []);
    RunCons(closing, WriterMoves, []);
    RunNothing(Apply(closing, WriterMoves));
    assert Apply(s, Begin(Erase)) == begun && Apply(begun, WriterMoves) == off && Apply(off, WriterMoves) == closing;
    assert Apply(closing, WriterMoves) == Bump(closing).(writer := Resting, log := s.log);
    OneBump(closing);
    BumpErased(Bump(s), closing);
  }

  lemma BumpErased(s: Slot, closing: Slot)
    requires closing == s.(active := false, writer := Closing(Erase)) && s.writer.Resting?
    ensures Bump(closing).(writer := Resting) == Bump(s).(active := false)
  {
  }
}
