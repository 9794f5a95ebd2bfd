/** The ring of Core/SharedAudioRing.cpp: free-running 64-bit indices over 8192 samples. */
module SharedAudioRings {
  import opened Common
  import opened BoundedQueue

  const CAPACITY: int := 8192

  /** The cell of the `k`th element after the free-running index `index`. */
  function Cell(index: u64, k: nat): (c: nat)
    ensures c < CAPACITY
  {
    (index + k) % TWO64 % CAPACITY
  }

  /** 8192 divides 2^64, so cells stay consecutive where the index wraps. */
  lemma CellShift(index: u64, a: nat, b: nat)
    ensures Cell((index + a) % TWO64, b) == Cell(index, a + b)
  {
  }

  lemma CellsDiffer(index: u64, j: nat, k: nat)
    requires j != k && j - k < CAPACITY && k - j < CAPACITY
    ensures Cell(index, j) != Cell(index, k)
  {
  }

  lemma CellIs(index: u64, k: nat)
    ensures (index + k) % TWO64 % CAPACITY == Cell(index, k)
  {
  }

  /** The writer's cell `i` lies after the `used` unread cells, away from all of them. */
  lemma WriterCell(write: u64, read: u64, used: nat, i: nat)
    requires used == (write - read) % TWO64 && used + i < CAPACITY
    ensures Cell(write, i) == Cell(read, used + i)
    ensures forall j | 0 <= j < i :: Cell(write, j) != Cell(write, i)
    ensures forall k | 0 <= k < used :: Cell(read, k) != Cell(write, i)
  {
    assert write == (read + used) % TWO64;
    CellShift(read, used, i);
    hide Cell;
    forall j | 0 <= j < i ensures Cell(write, j) != Cell(write, i) { CellsDiffer(write, j, i); }
    forall k | 0 <= k < used ensures Cell(read, k) != Cell(write, i) { CellsDiffer(read, k, used + i); }
  }

  lemma UsedAfterWrite(write: u64, read: u64, count: nat)
    requires (write - read) % TWO64 + count <= CAPACITY
    ensures ((write + count) % TWO64 - read) % TWO64 == (write - read) % TWO64 + count
  {
  }

  lemma UsedAfterRead(write: u64, read: u64, count: nat)
    requires count <= (write - read) % TWO64 <= CAPACITY
    ensures (write - (read + count) % TWO64) % TWO64 == (write - read) % TWO64 - count
  {
  }

  class SharedAudioRing<T(0)> {
    var writeIndex: u64
    var readIndex: u64
    const samples: array<T>

    /** `writeIndex - readIndex` in 64-bit arithmetic. */
    function Used(): u64
      reads this
    {
      (writeIndex - readIndex) % TWO64
    }

    ghost predicate Valid()
      reads this
    {
      samples.Length == CAPACITY && Used() <= CAPACITY
    }

    /** The unread samples, oldest first. */
    ghost function Queue(): seq<T>
      reads this, samples
      requires Valid()
    {
      seq(Used(), k requires 0 <= k < Used() && Valid() reads this, samples =>
            samples[Cell(readIndex, k)])
    }

    constructor ()
      ensures Valid() && fresh(samples) && Queue() == []
    {
      writeIndex, readIndex := 0, 0;
      samples := new T[8192];
    }

    method Write(source: seq<T>) returns (count: nat)
      requires Valid()
      modifies `writeIndex, samples
      ensures Valid()
      ensures count == Room(CAPACITY, |old(Queue())|, |source|)
      ensures Queue() == old(Queue()) + source[..count]
    {
      hide Cell;
      var write, read := writeIndex, readIndex;
      var used := (write - read) % TWO64;
      count := Min(|source|, CAPACITY - Min(used, CAPACITY));
      var i := 0;
      while i < count
        invariant 0 <= i <= count
        invariant forall j | 0 <= j < i :: samples[Cell(write, j)] == source[j]
        invariant forall k | 0 <= k < used :: samples[Cell(read, k)] == old(samples[Cell(read, k)])
        modifies samples
      {
        CellIs(write, i);
        WriterCell(write, read, used, i);
        samples[(write + i) % TWO64 % CAPACITY] := source[i];
        i := i + 1;
      }
      writeIndex := (write + count) % TWO64;
      UsedAfterWrite(write, read, count);
      forall k | 0 <= k < used + count
        ensures Queue()[k] == (old(Queue()) + source[..count])[k]
      {
        if k >= used {
          WriterCell(write, read, used, k - used);
        }
      }
    }

    method Read(destination: array<T>) returns (count: nat)
      requires Valid() && destination != samples
      modifies `readIndex, destination
      ensures Valid()
      ensures count == Min(destination.Length, |old(Queue())|)
      ensures destination[..count] == old(Queue())[..count]
      ensures destination[count..] == old(destination[count..])
      ensures Queue() == old(Queue())[count..]
    {
      hide Cell;
      var read, write := readIndex, writeIndex;
      count := Min(destination.Length, (write - read) % TWO64);
      var i := 0;
      while i < count
        invariant 0 <= i <= count
        invariant forall j | 0 <= j < i :: destination[j] == samples[Cell(read, j)]
        invariant forall j | i <= j < destination.Length :: destination[j] == old(destination[j])
        modifies destination
      {
        CellIs(read, i);
        destination[i] := samples[(read + i) % TWO64 % CAPACITY];
        i := i + 1;
      }
      readIndex := (read + count) % TWO64;
      UsedAfterRead(write, read, count);
      forall k | 0 <= k < Used()
        ensures Queue()[k] == old(Queue())[count..][k]
      {
        CellShift(read, count, k);
      }
    }

    method Available() returns (n: nat)
      requires Valid()
      ensures n == |Queue()|
    {
      n := (writeIndex - readIndex) % TWO64;
    }

    method ResetWhenIdle()
      requires Valid()
      modifies `readIndex, `writeIndex
      ensures Valid() && Queue() == []
    {
      readIndex := 0;
      writeIndex := 0;
    }
  }
}
