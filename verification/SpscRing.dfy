/** The ring of Core/SPSCRingBuffer.hpp: indices modulo the capacity, one cell kept free. */
module SpscRings {
  import opened Common
  import opened Modular
  import opened BoundedQueue

  function Readable(capacity: nat, read: nat, write: nat): nat
    requires read < capacity && write < capacity
  {
    if write >= read then write - read else capacity - read + write
  }

  function Writable(capacity: nat, write: nat, read: nat): nat
    requires read < capacity && write < capacity
  {
    capacity - Readable(capacity, read, write) - 1
  }

  /** `(x + k) % capacity` for an index and an offset that are both in range. */
  function Wrapped(capacity: nat, x: nat, k: nat): nat
    requires x < capacity && k < capacity
  {
    if x + k < capacity then x + k else x + k - capacity
  }

  lemma WrappedIsRemainder(capacity: nat, x: nat, k: nat)
    requires x < capacity && k < capacity
    ensures (x + k) % capacity == Wrapped(capacity, x, k)
  {
    ShiftByMultiple(x + k - capacity, 1, capacity);
    SmallRemainder(Wrapped(capacity, x, k), capacity);
  }

  /** `n` elements from the read index on. */
  function Unread<T>(cells: seq<T>, read: nat, n: nat): (q: seq<T>)
    requires read < |cells| && n <= |cells|
    ensures |q| == n
  {
    seq(n, k requires 0 <= k < n => cells[Wrapped(|cells|, read, k)])
  }

  /** Cells written behind the unread ones extend them. */
  lemma Appended<T>(before: seq<T>, after: seq<T>, read: nat, write: nat, source: seq<T>, count: nat)
    requires |before| == |after| && read < |after| && write < |after|
    requires var used := Readable(|after|, read, write);
             && used + count < |after| && count <= |source|
             && (forall j | 0 <= j < count :: after[Wrapped(|after|, write, j)] == source[j])
             && (forall k | 0 <= k < used :: after[Wrapped(|after|, read, k)] == before[Wrapped(|after|, read, k)])
    ensures var used, end := Readable(|after|, read, write), Wrapped(|after|, write, count);
            && Readable(|after|, read, end) == used + count
            && Unread(after, read, used + count) == Unread(before, read, used) + source[..count]
  {
    var used := Readable(|after|, read, write);
    forall k | used <= k < used + count
      ensures Wrapped(|after|, read, k) == Wrapped(|after|, write, k - used)
    {
    }
  }

  /** Moving the read index drops the front. */
  lemma Dropped<T>(cells: seq<T>, read: nat, write: nat, count: nat)
    requires read < |cells| && write < |cells| && count <= Readable(|cells|, read, write)
    ensures var n, start := Readable(|cells|, read, write), Wrapped(|cells|, read, count);
            && Readable(|cells|, start, write) == n - count
            && Unread(cells, start, n - count) == Unread(cells, read, n)[count..]
  {
    var start := Wrapped(|cells|, read, count);
    forall k | 0 <= k < Readable(|cells|, read, write) - count
      ensures Wrapped(|cells|, start, k) == Wrapped(|cells|, read, k + count)
    {
    }
  }

  class SPSCRingBuffer<T(0)> {
    const storage: array<T>
    var writeIndex: nat
    var readIndex: nat

    ghost predicate Valid()
      reads this
    {
      storage.Length >= 2 && readIndex < storage.Length && writeIndex < storage.Length
    }

    /** The unread elements, oldest first. */
    ghost function Queue(): seq<T>
      reads this, storage
      requires Valid()
    {
      Unread(storage[..], readIndex, Readable(storage.Length, readIndex, writeIndex))
    }

    constructor (capacity: nat)
      requires capacity >= 2
      ensures Valid() && fresh(storage) && storage.Length == capacity && Queue() == []
    {
      storage := new T[capacity];
      writeIndex, readIndex := 0, 0;
    }

    method Write(source: seq<T>) returns (count: nat)
      requires Valid()
      modifies `writeIndex, storage
      ensures Valid()
      ensures count == Room(storage.Length - 1, |old(Queue())|, |source|)
      ensures Queue() == old(Queue()) + source[..count]
    {
      var write, read := writeIndex, readIndex;
      ghost var before, used := storage[..], Readable(storage.Length, read, write);
      count := Min(|source|, Writable(storage.Length, write, read));
      hide Unread;
      Store(source, count);
      Appended(before, storage[..], read, write, source, count);
      WrappedIsRemainder(storage.Length, write, count);
      writeIndex := (write + count) % storage.Length;
    }

    /** The copy loop of `write`. */
    method Store(source: seq<T>, count: nat)
      requires Valid() && count <= |source| && Readable(storage.Length, readIndex, writeIndex) + count < storage.Length
      modifies storage
      ensures forall j | 0 <= j < count :: storage[Wrapped(storage.Length, writeIndex, j)] == source[j]
      ensures forall k | 0 <= k < Readable(storage.Length, readIndex, writeIndex) ::
                storage[Wrapped(storage.Length, readIndex, k)] == old(storage[Wrapped(storage.Length, readIndex, k)])
    {
      var i := 0;
      while i < count
        invariant 0 <= i <= count
        invariant forall j | 0 <= j < i :: storage[Wrapped(storage.Length, writeIndex, j)] == source[j]
        invariant forall k | 0 <= k < Readable(storage.Length, readIndex, writeIndex) ::
                    storage[Wrapped(storage.Length, readIndex, k)] == old(storage[Wrapped(storage.Length, readIndex, k)])
      {
        WrappedIsRemainder(storage.Length, writeIndex, i);
        storage[(writeIndex + i) % storage.Length] := source[i];
        i := i + 1;
      }
    }

    method Read(destination: array<T>) returns (count: nat)
      requires Valid() && destination != storage
      modifies `readIndex, destination
      ensures Valid()
      ensures count == Min(destination.Length, |old(Queue())|)
      ensures destination[..count] == old(Queue())[..count]
      ensures destination[count..] == old(destination[count..])
      ensures Queue() == old(Queue())[count..]
    {
      var read, write := readIndex, writeIndex;
      ghost var unread := Queue();
      count := Min(destination.Length, Readable(storage.Length, read, write));
      Fetch(destination, count);
      Dropped(storage[..], read, write, count);
      WrappedIsRemainder(storage.Length, read, count);
      hide Unread, Wrapped;
      readIndex := (read + count) % storage.Length;
    }

    /** The copy loop of `read`. */
    method Fetch(destination: array<T>, count: nat)
      requires Valid() && destination != storage && count <= destination.Length
      requires count <= Readable(storage.Length, readIndex, writeIndex)
      modifies destination
      ensures destination[..count] == Queue()[..count]
      ensures destination[count..] == old(destination[count..])
    {
      var i := 0;
      while i < count
        invariant 0 <= i <= count
        invariant forall j | 0 <= j < i :: destination[j] == storage[Wrapped(storage.Length, readIndex, j)]
        invariant forall j | i <= j < destination.Length :: destination[j] == old(destination[j])
      {
        WrappedIsRemainder(storage.Length, readIndex, i);
        destination[i] := storage[(readIndex + i) % storage.Length];
        i := i + 1;
      }
    }

    method Available() returns (n: nat)
      requires Valid()
      ensures n == |Queue()|
    {
      n := Readable(storage.Length, readIndex, writeIndex);
    }

    method ResetWhenIdle()
      requires Valid()
      modifies `readIndex, `writeIndex
      ensures Valid() && Queue() == []
    {
      readIndex := 0;
      writeIndex := 0;
    }
  }
}
