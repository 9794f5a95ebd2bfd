/** Network byte order: numbers as sequences of bytes, most significant first. */
module Bytes {
  import opened Common

  function Pow256(n: nat): (p: nat)
    ensures p > 0
  {
    if n == 0 then 1 else 256 * Pow256(n - 1)
  }

  /** The low `n` bytes of a number. */
  function BigEndian(value: nat, n: nat): (s: seq<u8>)
    ensures |s| == n
  {
    if n == 0 then [] else BigEndian(value / 256, n - 1) + [value % 256]
  }

  /** The number the bytes spell. */
  function Value(s: seq<u8>): nat {
    if s == [] then 0 else 256 * Value(s[..|s| - 1]) + s[|s| - 1]
  }

  lemma {:induction false} ValueBound(s: seq<u8>)
    ensures Value(s) < Pow256(|s|)
  {
    if s != [] {
      ValueBound(s[..|s| - 1]);
    }
  }

  lemma {:induction false} ValueOfBigEndian(value: nat, n: nat)
    requires value < Pow256(n)
    ensures Value(BigEndian(value, n)) == value
  {
    if n > 0 {
      var s := BigEndian(value, n);
      assert s[..n - 1] == BigEndian(value / 256, n - 1);
      ValueOfBigEndian(value / 256, n - 1);
    }
  }

  lemma {:induction false} BigEndianOfValue(s: seq<u8>)
    ensures BigEndian(Value(s), |s|) == s
  {
    if s != [] {
      var init := s[..|s| - 1];
      assert Value(s) / 256 == Value(init) && Value(s) % 256 == s[|s| - 1];
      BigEndianOfValue(init);
    }
  }

  lemma {:induction false} ValueAppend(a: seq<u8>, b: seq<u8>)
    ensures Value(a + b) == Value(a) * Pow256(|b|) + Value(b)
  {
    if b == [] {
      assert a + b == a;
    } else {
      var n := |b| - 1;
      assert (a + b)[..|a| + n] == a + b[..n];
      ValueAppend(a, b[..n]);
      assert Value(a) * Pow256(|b|) == 256 * (Value(a) * Pow256(n));
    }
  }

  lemma PowersOf256()
    ensures Pow256(2) == TWO16 && Pow256(4) == TWO32 && Pow256(8) == TWO64
  {
  }

  /** `put16`, `put32` and `put64`: writes a number over `n` bytes at `at`. */
  method Put(data: array<u8>, at: nat, n: nat, value: nat)
    requires at + n <= data.Length && value < Pow256(n)
    modifies data
    ensures data[at..at + n] == BigEndian(value, n)
    ensures forall k :: 0 <= k < data.Length && !(at <= k < at + n) ==> data[k] == old(data[k])
  {
    var i, rest := n, value;
    while i > 0
      invariant 0 <= i <= n
      invariant forall k :: 0 <= k < data.Length && !(at <= k < at + n) ==> data[k] == old(data[k])
      invariant BigEndian(rest, i) + data[at + i..at + n] == BigEndian(value, n)
    {
      i := i - 1;
      data[at + i] := rest % 256;
      assert data[at + i..at + n] == [data[at + i]] + data[at + i + 1..at + n];
      rest := rest / 256;
    }
  }

  /** Bytes that did not change spell the same field. */
  lemma SameField(before: seq<u8>, after: seq<u8>, lo: nat, hi: nat)
    requires |before| == |after| && lo <= hi <= |before|
    requires forall k :: lo <= k < hi ==> before[k] == after[k]
    ensures before[lo..hi] == after[lo..hi]
  {
  }
}
