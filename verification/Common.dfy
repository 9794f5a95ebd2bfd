/** Fixed-width integers, C++ division and the small helpers every part uses. */
module Common {
  const TWO8: int := 0x100
  const TWO16: int := 0x1_0000
  const TWO32: int := 0x1_0000_0000
  const TWO63: int := 0x8000_0000_0000_0000
  const TWO64: int := 0x1_0000_0000_0000_0000

  type u8 = x: int | 0 <= x < 0x100
  type u16 = x: int | 0 <= x < 0x1_0000
  type u32 = x: int | 0 <= x < 0x1_0000_0000
  type u64 = x: int | 0 <= x < 0x1_0000_0000_0000_0000
  type i64 = x: int | -0x8000_0000_0000_0000 <= x < 0x8000_0000_0000_0000

  datatype Option<+T> = None | Some(value: T)

  /** C++ integer division: the quotient is truncated toward zero. */
  function TruncDiv(a: int, b: int): int
    requires b > 0
  {
    if a >= 0 then a / b else -((-a) / b)
  }

  function Min(a: int, b: int): int {
    if a <= b then a else b
  }

  function Abs(a: int): nat {
    if a >= 0 then a else -a
  }

  /** `fetch_add(1)` on a 16-bit or 64-bit word. */
  function Next16(x: u16): u16 {
    if x == 0xFFFF then 0 else x + 1
  }

  function Inc64(x: u64): u64 {
    if x == 0xFFFF_FFFF_FFFF_FFFF then 0 else x + 1
  }

  /** `fetch_sub(1)` on a 64-bit word. */
  function Dec64(x: u64): u64 {
    if x == 0 then 0xFFFF_FFFF_FFFF_FFFF else x - 1
  }

  function Pow2(k: nat): (r: nat)
    ensures r > 0
  {
    if k == 0 then 1 else 2 * Pow2(k - 1)
  }

  /** The numbers below `n`. */
  function UpTo(n: nat): (r: set<nat>)
    ensures |r| == n && forall o: nat :: o in r <==> o < n
  {
    if n == 0 then {} else UpTo(n - 1) + {n - 1}
  }
}
