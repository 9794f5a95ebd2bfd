/** Remainders by a variable modulus, kept apart because the solver needs help with them. */
module Modular {

  /** The remainder of `x` by `n`, by repeated subtraction: the solver meets no division
      by a variable where this is used. */
  function Mod(x: nat, n: nat): (r: nat)
    requires n > 0
    ensures r < n
    ensures x < n ==> r == x
  {
    if x < n then x else Mod(x - n, n)
  }

  lemma {:induction false} ModIsRemainder(x: nat, n: nat)
    requires n > 0
    ensures Mod(x, n) == x % n
  {
    if x >= n {
      ModIsRemainder(x - n, n);
      ShiftByMultiple(x - n, 1, n);
    } else {
      SmallRemainder(x, n);
    }
  }

  /** `n` divides `m`. */
  predicate Divides(n: nat, m: nat) {
    n > 0 && m % n == 0
  }

  lemma MultipleIsFar(n: int, d: int)
    requires n > 0
    ensures d >= 1 ==> n * d >= n
    ensures d <= -1 ==> n * d <= -n
  {
  }

  lemma ShiftByMultiple(x: int, k: int, n: nat)
    requires n > 0
    ensures (n * k + x) % n == x % n
  {
    var a, b := (n * k + x) / n, x / n;
    assert n * k + x == n * a + (n * k + x) % n;
    assert x == n * b + x % n;
    assert n * (a - k - b) == x % n - (n * k + x) % n;
    MultipleIsFar(n, a - k - b);
  }

  lemma SmallRemainder(x: nat, n: nat)
    requires x < n
    ensures x % n == x
  {
  }

  /** Wrapping at a multiple of `n` does not change the remainder by `n`. */
  lemma WrapKeepsMod(x: nat, m: nat, n: nat)
    requires m > 0 && Divides(n, m)
    ensures Mod(x % m, n) == Mod(x, n)
  {
    assert m % n == 0;
    hide *;
    ModIsRemainder(x, n);
    ModIsRemainder(x % m, n);
    Quotient(x, m);
    Quotient(m, n);
    WrapKeepsRemainder(x, m, n, m / n, x / m, x % m);
  }

  lemma Quotient(x: nat, m: nat)
    requires m > 0
    ensures x == m * (x / m) + x % m && x / m >= 0 && x % m >= 0
  {
  }

  lemma WrapKeepsRemainder(x: nat, m: nat, n: nat, q: nat, t: nat, r: nat)
    requires n > 0 && m == n * q && x == m * t + r
    ensures x % n == r % n
  {
    Regroup(n, q, t);
    ShiftByMultiple(r, q * t, n);
  }

  lemma Regroup(n: nat, q: nat, t: nat)
    ensures n * q * t == n * (q * t)
  {
  }

  lemma NearbyDiffer(a: nat, b: nat, n: nat)
    requires n > 0 && a != b && a - b < n && b - a < n
    ensures Mod(a, n) != Mod(b, n)
  {
  }

  /** A window of `n` consecutive numbers meets every remainder. */
  lemma RemainderReached(base: nat, s: nat, n: nat) returns (i: nat)
    requires s < n
    ensures i < n && Mod(base + i, n) == s
  {
    var q, r := base / n, base % n;
    assert base == n * q + r;
    SmallRemainder(s, n);
    if s >= r {
      i := s - r;
      ShiftByMultiple(s, q, n);
      assert base + i == n * q + s;
    } else {
      i := s + n - r;
      ShiftByMultiple(s, q + 1, n);
      assert n * (q + 1) == n * q + n;
      assert base + i == n * (q + 1) + s;
    }
    ModIsRemainder(base + i, n);
  }

  /** Advancing a wrapped counter. */
  lemma WrapAdvance(a: nat, k: nat, m: nat)
    requires m > 0
    ensures (a % m + k) % m == (a + k) % m
  {
    var p := a / m;
    assert a == m * p + a % m;
    assert a + k == m * p + (a % m + k);
    ShiftByMultiple(a % m + k, p, m);
  }

  lemma DivisorIsSmall(n: nat, m: nat)
    requires m > 0 && Divides(n, m)
    ensures n <= m
  {
  }
}
