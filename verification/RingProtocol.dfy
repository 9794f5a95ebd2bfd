/** Both rings as a writer and a reader that interleave atomic steps, each working from a
    stale copy of the other's index. Steps are sequentially consistent; weak memory
    ordering is not modelled. `produced` and `consumed` are history. */
module RingProtocol {
  import opened Common
  import opened Modular
  import opened BoundedQueue
  import S = SharedAudioRings
  import P = SpscRings

  /** `SharedAudioRing`, or `SPSCRingBuffer` with the given capacity. */
  datatype Kind = FreeRunning | Spare(capacity: nat) {
    ghost predicate Valid() {
      Spare? ==> capacity >= 2
    }

    /** Where the indices wrap. */
    function Modulus(): nat
    {
      match this
      case FreeRunning => TWO64
      case Spare(n) => n
    }

    function Cells(): nat {
      match this
      case FreeRunning => S.CAPACITY
      case Spare(n) => n
    }

    /** How many elements the ring can hold. */
    function Usable(): nat
      requires Valid()
    {
      match this
      case FreeRunning => S.CAPACITY
      case Spare(n) => n - 1
    }

    /** Elements between the read index and the write index, as the code computes it. */
    function Distance(write: nat, read: nat): nat
      requires Valid() && write < Modulus() && read < Modulus()
    {
      match this
      case FreeRunning => (write - read) % TWO64
      case Spare(n) => P.Readable(n, read, write)
    }

    function Advance(index: nat, count: nat): nat
      requires Valid()
    {
      (index + count) % Modulus()
    }

    function CellOf(index: nat, k: nat): nat
      requires Valid() && index < Modulus()
    {
      match this
      case FreeRunning => S.Cell(index, k)
      case Spare(n) => (index + k) % n
    }
  }

  lemma KindBounds(kind: Kind)
    requires kind.Valid()
    ensures kind.Modulus() > 0 && kind.Usable() <= kind.Cells() && kind.Usable() < kind.Modulus()
  {
  }

  // The index arithmetic of either ring, seen from counters that never wrap.

  lemma AdvanceIsCounting(kind: Kind, n: nat, k: nat)
    requires kind.Valid()
    ensures kind.Advance(Mod(n, kind.Modulus()), k) == Mod(n + k, kind.Modulus())
  {
    var m := kind.Modulus();
    ModIsRemainder(n, m);
    ModIsRemainder(n + k, m);
    WrapAdvance(n, k, m);
  }

  lemma CellIsCounting(kind: Kind, n: nat, k: nat)
    requires kind.Valid()
    ensures kind.CellOf(Mod(n, kind.Modulus()), k) == Mod(n + k, kind.Cells())
  {
    ModIsRemainder(n, kind.Modulus());
    ModIsRemainder(n + k, kind.Cells());
    hide Mod;
    match kind
    case FreeRunning => FreeCell(n, k);
    case Spare(c) => WrapAdvance(n, k, c);
  }

  lemma FreeCell(n: nat, k: nat)
    ensures (n % TWO64 + k) % TWO64 % S.CAPACITY == (n + k) % S.CAPACITY
  {
  }

  lemma DistanceIsLength(kind: Kind, written: nat, taken: nat)
    requires kind.Valid() && taken <= written <= taken + kind.Usable()
    ensures kind.Distance(Mod(written, kind.Modulus()), Mod(taken, kind.Modulus())) == written - taken
  {
  }

  datatype Writer<T> =
    | WriterIdle
    | LoadingRead(source: seq<T>, own: nat)
    | Storing(source: seq<T>, own: nat, count: nat, done: nat)

  datatype Reader<T> =
    | ReaderIdle
    | LoadingWrite(wanted: nat, own: nat)
    | Fetching(own: nat, count: nat, out: seq<T>)

  datatype Ring<T> = Ring(
    kind: Kind,
    cells: seq<T>,
    writeIndex: nat,
    readIndex: nat,
    writer: Writer<T>,
    reader: Reader<T>,
    produced: seq<T>,
    consumed: seq<T>)
  {
    ghost predicate InRange() {
      && kind.Valid()
      && |cells| == kind.Cells()
      && writeIndex < kind.Modulus() && readIndex < kind.Modulus()
      && (!writer.WriterIdle? ==> writer.own < kind.Modulus())
      && (!reader.ReaderIdle? ==> reader.own < kind.Modulus())
      && (writer.Storing? ==> writer.done <= writer.count <= |writer.source|)
      && (reader.Fetching? ==> |reader.out| <= reader.count)
    }

    /** The elements published and not yet taken. */
    function Queue(): seq<T> {
      if |consumed| <= |produced| then produced[|consumed|..] else []
    }
  }

  lemma CellInRange(kind: Kind, index: nat, k: nat)
    requires kind.Valid() && index < kind.Modulus()
    ensures kind.CellOf(index, k) < kind.Cells()
    ensures kind.Advance(index, k) < kind.Modulus()
  {
  }

  function WriterStep<T>(r: Ring<T>): Ring<T>
    requires r.InRange()
  {
    match r.writer
    case WriterIdle => r
    case LoadingRead(source, own) =>
      var used := r.kind.Distance(own, r.readIndex);
      r.(writer := Storing(source, own, Room(r.kind.Usable(), used, |source|), 0))
    case Storing(source, own, count, done) =>
      CellInRange(r.kind, own, done);
      if done < count then
        r.(cells := r.cells[r.kind.CellOf(own, done) := source[done]], writer := Storing(source, own, count, done + 1))
      else
        r.(writeIndex := r.kind.Advance(own, count), writer := WriterIdle, produced := r.produced + source[..count])
  }

  function ReaderStep<T>(r: Ring<T>): Ring<T>
    requires r.InRange()
  {
    match r.reader
    case ReaderIdle => r
    case LoadingWrite(wanted, own) =>
      r.(reader := Fetching(own, Min(wanted, r.kind.Distance(r.writeIndex, own)), []))
    case Fetching(own, count, out) =>
      CellInRange(r.kind, own, |out|);
      if |out| < count then
        r.(reader := Fetching(own, count, out + [r.cells[r.kind.CellOf(own, |out|)]]))
      else
        r.(readIndex := r.kind.Advance(own, count), reader := ReaderIdle, consumed := r.consumed + out)
  }

  datatype Action<T> = BeginWrite(source: seq<T>) | BeginRead(wanted: nat) | WriterMoves | ReaderMoves

  function Apply<T>(r: Ring<T>, a: Action<T>): Ring<T>
    requires r.InRange()
  {
    match a
    case BeginWrite(source) => if r.writer.WriterIdle? then r.(writer := LoadingRead(source, r.writeIndex)) else r
    case BeginRead(wanted) => if r.reader.ReaderIdle? then r.(reader := LoadingWrite(wanted, r.readIndex)) else r
    case WriterMoves => WriterStep(r)
    case ReaderMoves => ReaderStep(r)
  }

  /** Elements stored by the writer, published or not. */
  function Stored<T>(r: Ring<T>): seq<T>
    requires r.InRange()
  {
    if r.writer.Storing? then r.produced + r.writer.source[..r.writer.done] else r.produced
  }

  ghost predicate Inv<T>(r: Ring<T>) {
    && r.InRange()
    && |r.consumed| <= |r.produced| <= |r.consumed| + r.kind.Usable()
    && r.writeIndex == Mod(|r.produced|, r.kind.Modulus())
    && r.readIndex == Mod(|r.consumed|, r.kind.Modulus())
    && r.consumed == r.produced[..|r.consumed|]
    && (!r.writer.WriterIdle? ==> r.writer.own == r.writeIndex)
    && (!r.reader.ReaderIdle? ==> r.reader.own == r.readIndex)
    && (r.writer.Storing? ==> |r.produced| + r.writer.count <= |r.consumed| + r.kind.Usable())
    && (r.reader.Fetching? ==>
          && |r.consumed| + r.reader.count <= |r.produced|
          && r.reader.out == r.produced[|r.consumed|..|r.consumed| + |r.reader.out|])
    && Held(r.cells, |r.consumed|, Stored(r))
  }

  /** Every element from number `from` on is still in its cell. */
  ghost predicate Held<T>(cells: seq<T>, from: nat, stored: seq<T>) {
    |cells| > 0 && forall j: nat | from <= j < |stored| :: cells[Mod(j, |cells|)] == stored[j]
  }

  lemma HeldIsCell<T>(cells: seq<T>, from: nat, stored: seq<T>, j: nat)
    requires Held(cells, from, stored) && from <= j < |stored|
    ensures |cells| > 0 && cells[Mod(j, |cells|)] == stored[j]
  {
  }

  lemma HeldFewer<T>(cells: seq<T>, from: nat, from': nat, stored: seq<T>)
    requires Held(cells, from, stored) && from <= from'
    ensures Held(cells, from', stored)
  {
  }

  /** A store into the next free cell leaves the others alone. */
  lemma HeldMore<T>(cells: seq<T>, from: nat, stored: seq<T>, x: T)
    requires Held(cells, from, stored) && from <= |stored| < from + |cells|
    ensures Held(cells[Mod(|stored|, |cells|) := x], from, stored + [x])
  {
    hide Mod;
    var n := |cells|;
    var after, more := cells[Mod(|stored|, n) := x], stored + [x];
    forall j: nat | from <= j < |more|
      ensures after[Mod(j, n)] == more[j]
    {
      if j < |stored| {
        NearbyDiffer(j, |stored|, n);
      }
    }
  }

  lemma WriterLoads<T>(r: Ring<T>)
    requires Inv(r) && r.writer.LoadingRead?
    ensures Inv(WriterStep(r))
    ensures WriterStep(r).writer.count == Room(r.kind.Usable(), |r.Queue()|, |r.writer.source|)
  {
    KindBounds(r.kind);
    DistanceIsLength(r.kind, |r.produced|, |r.consumed|);
    hide Mod, Kind.Modulus, Kind.Cells, Kind.Usable, Kind.Distance, Kind.CellOf, Kind.Advance, Held;
    var n := WriterStep(r);
    assert n.produced + n.writer.source[..0] == n.produced;
  }

  lemma WriterStores<T>(r: Ring<T>)
    requires Inv(r) && r.writer.Storing? && r.writer.done < r.writer.count
    ensures Inv(WriterStep(r))
  {
    hide Mod, Kind.Modulus, Kind.Usable, Ring.Queue, Kind.Distance, Kind.CellOf, Kind.Advance, Held;
    KindBounds(r.kind);
    CellIsCounting(r.kind, |r.produced|, r.writer.done);
    assert Stored(WriterStep(r)) == Stored(r) + [r.writer.source[r.writer.done]];
    HeldMore(r.cells, |r.consumed|, Stored(r), r.writer.source[r.writer.done]);
  }

  lemma WriterGrowsQueue<T>(r: Ring<T>)
    requires r.InRange() && |r.consumed| <= |r.produced| && r.writer.Storing? && r.writer.done == r.writer.count
    ensures WriterStep(r).Queue() == r.Queue() + r.writer.source[..r.writer.count]
  {
  }

  lemma WriterPublishes<T>(r: Ring<T>)
    requires Inv(r) && r.writer.Storing? && r.writer.done == r.writer.count
    ensures Inv(WriterStep(r))
    ensures WriterStep(r).Queue() == r.Queue() + r.writer.source[..r.writer.count]
  {
    hide Mod, Kind.Modulus, Kind.Cells, Kind.Usable, Kind.Distance, Kind.CellOf, Kind.Advance, Held, Ring.Queue;
    WriterGrowsQueue(r);
    KindBounds(r.kind);
    AdvanceIsCounting(r.kind, |r.produced|, r.writer.count);
    var x := r.writer.source[..r.writer.count];
    SliceKept(r.produced, x, 0, |r.consumed|);
    if r.reader.Fetching? {
      SliceKept(r.produced, x, |r.consumed|, |r.consumed| + |r.reader.out|);
    }
    assert WriterStep(r).produced == Stored(r) == Stored(WriterStep(r));
  }

  lemma SliceKept<T>(s: seq<T>, x: seq<T>, lo: nat, hi: nat)
    requires lo <= hi <= |s|
    ensures (s + x)[lo..hi] == s[lo..hi] && (s + x)[..hi] == s[..hi]
  {
  }

  lemma ReaderLoads<T>(r: Ring<T>)
    requires Inv(r) && r.reader.LoadingWrite?
    ensures Inv(ReaderStep(r))
    ensures ReaderStep(r).reader.count == Min(r.reader.wanted, |r.Queue()|)
  {
    DistanceIsLength(r.kind, |r.produced|, |r.consumed|);
    hide Mod, Kind.Modulus, Kind.Cells, Kind.Usable, Kind.Distance, Kind.CellOf, Kind.Advance, Held;
  }

  lemma ReaderFetches<T>(r: Ring<T>)
    requires Inv(r) && r.reader.Fetching? && |r.reader.out| < r.reader.count
    ensures Inv(ReaderStep(r))
  {
    hide Mod, Kind.Modulus, Kind.Usable, Kind.Distance, Kind.CellOf, Kind.Advance, Held, Ring.Queue;
    CellIsCounting(r.kind, |r.consumed|, |r.reader.out|);
    HeldIsCell(r.cells, |r.consumed|, Stored(r), |r.consumed| + |r.reader.out|);
  }

  lemma ReaderShrinksQueue<T>(r: Ring<T>)
    requires r.InRange() && r.reader.Fetching? && |r.reader.out| == r.reader.count
    requires |r.consumed| + r.reader.count <= |r.produced|
    requires r.reader.out == r.produced[|r.consumed|..|r.consumed| + r.reader.count]
    ensures |r.Queue()| >= r.reader.count && r.reader.out == r.Queue()[..r.reader.count]
    ensures ReaderStep(r).Queue() == r.Queue()[r.reader.count..]
  {
  }

  lemma ReaderPublishes<T>(r: Ring<T>)
    requires Inv(r) && r.reader.Fetching? && |r.reader.out| == r.reader.count
    ensures Inv(ReaderStep(r))
    ensures r.reader.out == r.Queue()[..r.reader.count] && ReaderStep(r).Queue() == r.Queue()[r.reader.count..]
  {
    hide Mod, Kind.Modulus, Kind.Cells, Kind.Usable, Kind.Distance, Kind.CellOf, Kind.Advance, Held, Ring.Queue;
    ReaderShrinksQueue(r);
    AdvanceIsCounting(r.kind, |r.consumed|, r.reader.count);
    HeldFewer(r.cells, |r.consumed|, |r.consumed| + r.reader.count, Stored(r));
    assert Stored(ReaderStep(r)) == Stored(r);
    assert ReaderStep(r).consumed == r.produced[..|r.consumed| + r.reader.count];
  }

  lemma WriterKeepsInv<T>(r: Ring<T>)
    requires Inv(r)
    ensures Inv(WriterStep(r))
  {
    match r.writer
    case WriterIdle =>
    case LoadingRead(_, _) => WriterLoads(r);
    case Storing(_, _, count, done) =>
      if done < count {
        WriterStores(r);
      } else {
        WriterPublishes(r);
      }
  }

  lemma ReaderKeepsInv<T>(r: Ring<T>)
    requires Inv(r)
    ensures Inv(ReaderStep(r))
  {
    match r.reader
    case ReaderIdle =>
    case LoadingWrite(_, _) => ReaderLoads(r);
    case Fetching(_, count, out) =>
      if |out| < count {
        ReaderFetches(r);
      } else {
        ReaderPublishes(r);
      }
  }

  lemma StepKeepsInv<T>(r: Ring<T>, a: Action<T>)
    requires Inv(r)
    ensures Inv(Apply(r, a))
  {
    match a
    case BeginWrite(_) =>
    case BeginRead(_) =>
    case WriterMoves => WriterKeepsInv(r);
    case ReaderMoves => ReaderKeepsInv(r);
  }

  /** Each atomic step is a step of the bounded queue: publishing a write appends to it,
      publishing a read removes its front, and every other step leaves it alone. */
  lemma StepRefinesQueue<T>(r: Ring<T>, a: Action<T>)
    requires Inv(r)
    ensures var n := Apply(r, a);
            && |n.Queue()| <= r.kind.Usable()
            && if a.WriterMoves? && r.writer.Storing? && r.writer.done == r.writer.count then
                 n.Queue() == r.Queue() + r.writer.source[..r.writer.count]
               else if a.ReaderMoves? && r.reader.Fetching? && |r.reader.out| == r.reader.count then
                 r.reader.out == r.Queue()[..r.reader.count] && n.Queue() == r.Queue()[r.reader.count..]
               else n.Queue() == r.Queue()
  {
    StepKeepsInv(r, a);
    InvBoundsQueue(r);
    InvBoundsQueue(Apply(r, a));
    if a.WriterMoves? && r.writer.Storing? && r.writer.done == r.writer.count {
      WriterPublishes(r);
    } else if a.ReaderMoves? && r.reader.Fetching? && |r.reader.out| == r.reader.count {
      ReaderPublishes(r);
    }
    hide Inv, Kind.Distance, Kind.CellOf, Kind.Advance, Kind.Usable;
  }

  lemma InvBoundsQueue<T>(r: Ring<T>)
    requires Inv(r)
    ensures r.InRange() && |r.Queue()| <= r.kind.Usable() && |r.consumed| <= |r.produced|
    ensures r.writer.Storing? ==> r.writer.done <= r.writer.count
    ensures r.reader.Fetching? ==> |r.reader.out| <= r.reader.count
  {
  }

  /** The count an operation settles on is the one the queue allows at the moment it
      loads the other thread's index, however far both indices have wrapped. */
  lemma CountsFromTheQueue<T>(r: Ring<T>)
    requires Inv(r)
    ensures r.writer.LoadingRead? ==>
              WriterStep(r).writer.count == Room(r.kind.Usable(), |r.Queue()|, |r.writer.source|)
    ensures r.reader.LoadingWrite? ==> ReaderStep(r).reader.count == Min(r.reader.wanted, |r.Queue()|)
  {
    if r.writer.LoadingRead? {
      WriterLoads(r);
    }
    if r.reader.LoadingWrite? {
      ReaderLoads(r);
    }
  }

  /** A ring after `resetWhenIdle`. */
  ghost predicate Fresh<T>(r: Ring<T>) {
    && r.InRange() && r.writer.WriterIdle? && r.reader.ReaderIdle?
    && r.produced == [] && r.consumed == []
    && r.writeIndex == 0 && r.readIndex == 0
  }

  lemma InvIsInRange<T>(r: Ring<T>)
    requires Inv(r)
    ensures r.InRange()
  {
  }

  lemma ApplyKeepsKind<T>(r: Ring<T>, a: Action<T>)
    requires r.InRange()
    ensures Apply(r, a).kind == r.kind
  {
  }

  ghost function Run<T>(r: Ring<T>, actions: seq<Action<T>>): (n: Ring<T>)
    requires Inv(r)
    ensures Inv(n) && n.kind == r.kind
    decreases |actions|
  {
    hide *;
    InvIsInRange(r);
    if actions == [] then r
    else
      StepKeepsInv(r, actions[0]);
      ApplyKeepsKind(r, actions[0]);
      Run(Apply(r, actions[0]), actions[1..])
  }

  /** Under every schedule: what was read is a prefix of what was written, never more
      than the capacity is outstanding, and every unread element is still in its cell. */
  lemma FirstInFirstOut<T>(start: Ring<T>, actions: seq<Action<T>>)
    requires Fresh(start)
    ensures Inv(start)
    ensures var r := Run(start, actions);
            && r.consumed <= r.produced
            && |r.produced| - |r.consumed| <= start.kind.Usable()
            && forall j: nat | |r.consumed| <= j < |r.produced| ::
                 Mod(j, r.kind.Cells()) < |r.cells| && r.cells[Mod(j, r.kind.Cells())] == r.produced[j]
  {
  }

  // ----- One call alone -----

  /** `n` steps of one thread. */
  function Repeat<T>(a: Action<T>, n: nat): (r: seq<Action<T>>)
    ensures |r| == n
  {
    if n == 0 then [] else [a] + Repeat(a, n - 1)
  }

  lemma RunFirst<T>(r: Ring<T>, a: Action<T>, rest: seq<Action<T>>)
    requires Inv(r)
    ensures r.InRange() && Inv(Apply(r, a)) && Run(r, [a] + rest) == Run(Apply(r, a), rest)
  {
    InvIsInRange(r);
    StepKeepsInv(r, a);
    ApplyKeepsKind(r, a);
    assert ([a] + rest)[1..] == rest;
    hide Inv, Apply;
  }

  lemma {:induction false} StoresAlone<T>(r: Ring<T>)
    requires Inv(r) && r.writer.Storing?
    ensures r.InRange()
    ensures var n := Run(r, Repeat(WriterMoves, r.writer.count - r.writer.done + 1));
            && n.writer.WriterIdle? && n.reader == r.reader && n.consumed == r.consumed
            && n.produced == r.produced + r.writer.source[..r.writer.count]
    decreases r.writer.count - r.writer.done
  {
    InvIsInRange(r);
    var left := r.writer.count - r.writer.done;
    hide Inv, Kind.Distance, Kind.CellOf, Kind.Advance;
    RunFirst(r, WriterMoves, Repeat(WriterMoves, left));
    var n := WriterStep(r);
    if left > 0 {
      StoresAlone(n);
    } else {
      assert Repeat<T>(WriterMoves, 0) == [];
    }
  }

  lemma {:induction false} FetchesAlone<T>(r: Ring<T>)
    requires Inv(r) && r.reader.Fetching?
    ensures r.InRange()
    ensures var n := Run(r, Repeat(ReaderMoves, r.reader.count - |r.reader.out| + 1));
            && n.reader.ReaderIdle? && n.writer == r.writer && n.produced == r.produced
            && |n.consumed| == |r.consumed| + r.reader.count
    decreases r.reader.count - |r.reader.out|
  {
    InvIsInRange(r);
    var left := r.reader.count - |r.reader.out|;
    hide Inv, Kind.Distance, Kind.CellOf, Kind.Advance;
    RunFirst(r, ReaderMoves, Repeat(ReaderMoves, left));
    var n := ReaderStep(r);
    if left > 0 {
      FetchesAlone(n);
    }
  }

  /** A write that runs alone puts as much of `source` behind the queue as fits, as the
      methods of both rings do. */
  lemma WriteAlone<T>(r: Ring<T>, source: seq<T>) returns (steps: nat)
    requires Inv(r) && r.writer.WriterIdle?
    ensures var n := Run(r, [BeginWrite(source)] + Repeat(WriterMoves, steps));
            && n.writer.WriterIdle? && n.reader == r.reader && n.consumed == r.consumed && r.kind.Valid()
            && n.produced == r.produced + source[..Room(r.kind.Usable(), |r.Queue()|, |source|)]
  {
    var m, n := WriteBegins(r, source);
    steps := n.writer.count + 2;
    hide *;
    RunFirst(r, BeginWrite(source), Repeat(WriterMoves, steps));
    RepeatOne<T>(WriterMoves, steps);
    RunFirst(m, WriterMoves, Repeat(WriterMoves, steps - 1));
    StoresAlone(n);
  }

  lemma RepeatOne<T>(a: Action<T>, n: nat)
    ensures n > 0 ==> Repeat(a, n) == [a] + Repeat(a, n - 1)
  {
  }

  lemma WriteBegins<T>(r: Ring<T>, source: seq<T>) returns (m: Ring<T>, n: Ring<T>)
    requires Inv(r) && r.writer.WriterIdle?
    ensures r.InRange() && m == Apply(r, BeginWrite(source)) && Inv(m) && m.InRange() && n == Apply(m, WriterMoves) && Inv(n)
    ensures r.kind.Valid() && n.writer.Storing? && n.writer.done == 0 && n.writer.source == source && n.reader == r.reader
    ensures n.consumed == r.consumed && n.produced == r.produced
    ensures n.writer.count == Room(r.kind.Usable(), |r.Queue()|, |source|)
  {
    m := Apply(r, BeginWrite(source));
    StepKeepsInv(r, BeginWrite(source));
    CountsFromTheQueue(m);
    StepKeepsInv(m, WriterMoves);
    n := WriterStep(m);
    assert m.Queue() == r.Queue();
    hide Inv, Kind.Distance, Ring.Queue;
  }

  lemma ReadBegins<T>(r: Ring<T>, wanted: nat) returns (m: Ring<T>, n: Ring<T>)
    requires Inv(r) && r.reader.ReaderIdle?
    ensures r.InRange() && m == Apply(r, BeginRead(wanted)) && Inv(m) && m.InRange() && n == Apply(m, ReaderMoves) && Inv(n)
    ensures n.reader.Fetching? && n.reader.out == [] && n.writer == r.writer
    ensures n.consumed == r.consumed && n.produced == r.produced
    ensures n.reader.count == Min(wanted, |r.Queue()|)
  {
    m := Apply(r, BeginRead(wanted));
    StepKeepsInv(r, BeginRead(wanted));
    CountsFromTheQueue(m);
    StepKeepsInv(m, ReaderMoves);
    n := ReaderStep(m);
    assert m.Queue() == r.Queue();
    hide Inv, Kind.Distance, Ring.Queue;
  }

  /** A read that runs alone takes the front of the queue, as much of it as is wanted. */
  lemma ReadAlone<T>(r: Ring<T>, wanted: nat) returns (steps: nat)
    requires Inv(r) && r.reader.ReaderIdle?
    ensures var n := Run(r, [BeginRead(wanted)] + Repeat(ReaderMoves, steps));
            && n.reader.ReaderIdle? && n.writer == r.writer && n.produced == r.produced
            && n.consumed == r.consumed + r.Queue()[..Min(wanted, |r.Queue()|)]
  {
    var m, n := ReadBegins(r, wanted);
    steps := n.reader.count + 2;
    InvSaysConsumed(r);
    hide *;
    MinIsSmall(wanted, |r.Queue()|);
    RunFirst(r, BeginRead(wanted), Repeat(ReaderMoves, steps));
    RepeatOne<T>(ReaderMoves, steps);
    RunFirst(m, ReaderMoves, Repeat(ReaderMoves, steps - 1));
    FetchesAlone(n);
    InvSaysConsumed(Run(r, [BeginRead(wanted)] + Repeat(ReaderMoves, steps)));
    TakenIsFront(r, Run(r, [BeginRead(wanted)] + Repeat(ReaderMoves, steps)), n.reader.count);
  }

  lemma MinIsSmall(a: nat, b: nat)
    ensures 0 <= Min(a, b) <= b
  {
  }

  lemma InvSaysConsumed<T>(r: Ring<T>)
    requires Inv(r)
    ensures |r.consumed| <= |r.produced| && r.consumed == r.produced[..|r.consumed|]
  {
  }

  lemma TakenIsFront<T>(r: Ring<T>, n: Ring<T>, count: nat)
    requires |r.consumed| <= |r.produced| && r.consumed == r.produced[..|r.consumed|]
    requires |n.consumed| <= |n.produced| && n.consumed == n.produced[..|n.consumed|]
    requires n.produced == r.produced && |n.consumed| == |r.consumed| + count && count <= |r.Queue()|
    ensures n.consumed == r.consumed + r.Queue()[..count]
  {
  }
}
