/** 24-bit audio samples (Core/L24Codec.cpp). Samples are real numbers; `lrint` and the
    conversions to double and single precision round to nearest, ties to even. */
module L24 {
  import opened Bytes
  import opened Common

  const PEAK: int := 8_388_607
  const LOWEST: int := -8_388_608

  type Code = p: int | -8_388_608 <= p <= 8_388_607

  function Clamp(x: real): real {
    if x < -1.0 then -1.0 else if x > 1.0 then 1.0 else x
  }

  function RoundEven(x: real): int {
    var below := x.Floor;
    var part := x - below as real;
    if part < 0.5 then below
    else if part > 0.5 then below + 1
    else if below % 2 == 0 then below
    else below + 1
  }

  /** The product is exact in double precision: a single has 24 significant bits and the
      peak has 23. */
  function EncodeSample(x: real): (p: Code)
  {
    var value := Clamp(x);
    if value <= -1.0 then LOWEST
    else
      RoundsNear(value * 8_388_607.0);
      RoundEven(value * 8_388_607.0)
  }

  /** The quotient before any rounding. */
  function Exact(p: Code): real {
    if p < 0 then p as real / 8_388_608.0 else p as real / 8_388_607.0
  }

  /** The double quotient, converted to single. */
  function DecodeSample(p: Code): real {
    Rounded(Rounded(Exact(p), DOUBLE), SINGLE)
  }

  /** Rounding moves a number by at most one half. */
  lemma RoundsNear(x: real)
    ensures -0.5 <= RoundEven(x) as real - x <= 0.5
    ensures x < 8_388_607.5 && x > -8_388_608.5 ==> LOWEST <= RoundEven(x) <= PEAK
  {
  }

  // ----- Floating point -----

  /** The least whole significands of double and of single precision. */
  const DOUBLE: nat := 0x10_0000_0000_0000

  const SINGLE: nat := 0x80_0000

  /** The number below 2 * `least` that is nearest to `x` among those whose significand,
      doubled until it is at least `least`, is whole; ties to even. Sample exponents are far
      from both ends of their range. */
  function Nearest(x: real, least: nat): real
    requires x > 0.0 && least > 0
    decreases (least as real / x).Floor
  {
    if x >= least as real then RoundEven(x) as real
    else
      Halves(x, least);
      Nearest(2.0 * x, least) / 2.0
  }

  lemma Halves(x: real, least: nat)
    requires 0.0 < x < least as real
    ensures 0 <= (least as real / (2.0 * x)).Floor < (least as real / x).Floor
  {
    var ratio := least as real / x;
    assert ratio * x == least as real;
    assert ratio > 1.0;
    assert least as real / (2.0 * x) == ratio / 2.0;
  }

  function Rounded(x: real, least: nat): real
    requires least > 0
  {
    if x == 0.0 then 0.0 else if x < 0.0 then -Nearest(-x, least) else Nearest(x, least)
  }

  /** The relative error is at most one part in 2 * `least`. */
  predicate Close(y: real, x: real, least: nat) {
    -x <= (y - x) * (2 * least) as real <= x
  }

  lemma {:induction false} NearestIsClose(x: real, least: nat)
    requires x > 0.0 && least > 0
    ensures Close(Nearest(x, least), x, least)
    decreases (least as real / x).Floor
  {
    hide Close, RoundEven;
    if x >= least as real {
      WholeIsClose(x, least);
    } else {
      Halves(x, least);
      NearestIsClose(2.0 * x, least);
      HalfIsClose(Nearest(2.0 * x, least), x, least);
    }
  }

  lemma WholeIsClose(x: real, least: nat)
    requires x >= least as real
    ensures Close(RoundEven(x) as real, x, least)
  {
    RoundsNear(x);
    hide RoundEven;
    Scales(RoundEven(x) as real - x, least);
  }

  lemma Scales(error: real, least: nat)
    requires -0.5 <= error <= 0.5
    ensures -(least as real) <= error * (2 * least) as real <= least as real
  {
  }

  lemma HalfIsClose(y: real, x: real, least: nat)
    requires Close(y, 2.0 * x, least)
    ensures Close(y / 2.0, x, least)
  {
    var error, scale := y / 2.0 - x, (2 * least) as real;
    assert y - 2.0 * x == 2.0 * error;
    assert (2.0 * error) * scale == 2.0 * (error * scale);
  }

  lemma {:induction false} NearestKeepsWhole(n: nat, least: nat)
    requires n > 0 && least > 0
    ensures Nearest(n as real, least) == n as real
    decreases (least as real / n as real).Floor
  {
    if n < least {
      Halves(n as real, least);
      assert 2.0 * n as real == (2 * n) as real;
      NearestKeepsWhole(2 * n, least);
    }
  }

  /** Multiples of 2^-k below 2^-k * `least` are kept. */
  lemma {:induction false} NearestKeeps(x: real, n: nat, k: nat, least: nat)
    requires 0 < n <= least && x * Pow2(k) as real == n as real
    ensures x > 0.0 && Nearest(x, least) == x
    decreases k
  {
    if k == 0 {
      NearestKeepsWhole(n, least);
    } else {
      Doubled(x, n, Pow2(k - 1), least);
      NearestKeeps(2.0 * x, n, k - 1, least);
    }
  }

  lemma Doubled(x: real, n: nat, half: nat, least: nat)
    requires half > 0 && 0 < n <= least && x * (2 * half) as real == n as real
    ensures (2.0 * x) * half as real == n as real && 0.0 < x < least as real
  {
    var h := half as real;
    assert (2 * half) as real == 2.0 * h && h >= 1.0;
    assert x * (2.0 * h) == (2.0 * x) * h;
    if x > 0.0 {
      assert 2.0 * x <= (2.0 * x) * h;
    }
  }

  /** Decoded negative samples are exact. */
  lemma NegativeIsExact(p: Code)
    requires p < 0
    ensures DecodeSample(p) == Exact(p)
  {
    var x, n := -Exact(p), -(p as int);
    SinglePower();
    assert x * 8_388_608.0 == n as real;
    hide Pow2, Nearest;
    NearestKeeps(x, n, 23, DOUBLE);
    NearestKeeps(x, n, 23, SINGLE);
  }

  lemma SinglePower()
    ensures Pow2(23) == 8_388_608
  {
    assert Pow2(7) == 128;
    assert Pow2(15) == 0x8000;
  }

  /** Decoded positive samples err by less than one part in 2^24 - 1. */
  lemma PositiveIsNear(p: Code)
    requires p >= 0
    ensures var exact := Exact(p); -exact <= (DecodeSample(p) - exact) * 16_777_215.0 <= exact
  {
    if p > 0 {
      var x := Exact(p);
      NearestIsClose(x, DOUBLE);
      var y := Nearest(x, DOUBLE);
      assert y > 0.0;
      NearestIsClose(y, SINGLE);
    }
  }

  /** A louder sample never gets a smaller code. */
  lemma EncodeMonotone(x: real, y: real)
    requires x <= y
    ensures EncodeSample(x) <= EncodeSample(y)
  {
  }

  /** What a code becomes after decoding and encoding again: codes between -2^23 and -2^22
      move up by one, all others stay. */
  function Recoded(p: Code): Code {
    if -8_388_608 < p < -4_194_304 then p + 1 else p
  }

  lemma RecodeIsExact(p: Code)
    ensures EncodeSample(DecodeSample(p)) == Recoded(p)
  {
    if p < 0 {
      NegativeIsExact(p);
      hide DecodeSample;
    } else {
      PositiveIsNear(p);
      hide DecodeSample;
      EncodeToleratesRounding(p, DecodeSample(p));
    }
  }

  /** A relative error of one part in 2^24 - 1, which is more than the two roundings add,
      does not change the code of a positive sample. */
  lemma EncodeToleratesRounding(p: Code, x: real)
    requires p >= 0
    requires var exact := Exact(p); -exact <= (x - exact) * 16_777_215.0 <= exact
    ensures EncodeSample(x) == p
  {
  }

  function Recode(p: Code, n: nat): Code
    decreases n
  {
    if n == 0 then p else Recode(EncodeSample(DecodeSample(p)), n - 1)
  }

  /** Going through the codec again and again settles: codes between -2^23 and -2^22 walk
      up to -2^22, one step at a time, and every other code is fixed from the start. */
  lemma {:induction false} RecodeSettles(p: Code, n: nat)
    ensures Recode(p, n) == if LOWEST < p < -4_194_304 then Min(p + n, -4_194_304) else p
    decreases n
  {
    if n > 0 {
      RecodeIsExact(p);
      RecodeSettles(Recoded(p), n - 1);
    }
  }

  /** The error of one trip through the codec. */
  lemma CodecError(x: real)
    ensures var y := DecodeSample(EncodeSample(x));
            -1.5 / 8_388_607.0 <= y - Clamp(x) <= 1.5 / 8_388_607.0
  {
    var p := EncodeSample(x);
    if p < 0 {
      NegativeIsExact(p);
    } else {
      PositiveIsNear(p);
    }
    hide DecodeSample;
  }

  // ----- Blocks -----

  /** Two's complement in 24 bits. */
  function Bits(p: Code): nat {
    if p < 0 then 0x100_0000 + p else p
  }

  /** A code as three bytes. */
  function CodeBytes(p: Code): (b: seq<u8>)
    ensures |b| == 3
  {
    BigEndian(Bits(p), 3)
  }

  function BytesCode(b: seq<u8>): Code
    requires |b| == 3
  {
    ValueBound(b);
    assert Pow256(3) == 0x100_0000;
    if Value(b) >= 0x80_0000 then Value(b) - 0x100_0000 else Value(b)
  }

  lemma CodeRoundTrip(p: Code)
    ensures BytesCode(CodeBytes(p)) == p
  {
    assert Pow256(3) == 0x100_0000;
    ValueOfBigEndian(Bits(p), 3);
  }

  ghost predicate IsEncoding(samples: seq<real>, bytes: seq<u8>) {
    |bytes| == 3 * |samples| && forall i {:trigger samples[i]} :: 0 <= i < |samples| ==>
      bytes[3 * i..3 * i + 3] == CodeBytes(EncodeSample(samples[i]))
  }

  ghost predicate IsDecoding(bytes: seq<u8>, samples: seq<real>) {
    |bytes| == 3 * |samples| && forall i {:trigger samples[i]} :: 0 <= i < |samples| ==>
      samples[i] == DecodeSample(BytesCode(bytes[3 * i..3 * i + 3]))
  }

  method Encode(samples: seq<real>, bytes: array<u8>) returns (ok: bool)
    modifies bytes
    ensures ok <==> bytes.Length == |samples| * 3
    ensures if ok then IsEncoding(samples, bytes[..]) else bytes[..] == old(bytes[..])
  {
    if bytes.Length != |samples| * 3 {
      return false;
    }
    for i := 0 to |samples|
      invariant forall k {:trigger samples[k]} :: 0 <= k < i ==>
        bytes[3 * k..3 * k + 3] == CodeBytes(EncodeSample(samples[k]))
    {
      var code := EncodeSample(samples[i]);
      var bits := Bits(code);
      ghost var before := bytes[..];
      hide EncodeSample, CodeBytes;
      bytes[3 * i] := bits / 0x1_0000 % 256;
      bytes[3 * i + 1] := bits / 0x100 % 256;
      bytes[3 * i + 2] := bits % 256;
      ThreeBytes(code);
      assert bytes[3 * i..3 * i + 3] == CodeBytes(code);
      forall k | 0 <= k < i
        ensures bytes[3 * k..3 * k + 3] == before[3 * k..3 * k + 3]
      {
      }
    }
    return true;
  }

  lemma ThreeBytes(p: Code)
    ensures var bits := Bits(p);
            CodeBytes(p) == [bits / 0x1_0000 % 256, bits / 0x100 % 256, bits % 256]
  {
    var bits := Bits(p);
    assert BigEndian(bits / 256 / 256, 1) == BigEndian(bits / 256 / 256 / 256, 0) + [bits / 256 / 256 % 256];
    assert BigEndian(bits / 256, 2) == BigEndian(bits / 256 / 256, 1) + [bits / 256 % 256];
    assert BigEndian(bits, 3) == BigEndian(bits / 256, 2) + [bits % 256];
    assert bits / 256 / 256 == bits / 0x1_0000;
  }

  method Decode(bytes: seq<u8>, samples: array<real>) returns (ok: bool)
    modifies samples
    ensures ok <==> |bytes| == samples.Length * 3
    ensures if ok then IsDecoding(bytes, samples[..]) else samples[..] == old(samples[..])
  {
    if |bytes| != samples.Length * 3 {
      return false;
    }
    for i := 0 to samples.Length
      invariant forall k :: 0 <= k < i ==> samples[k] == DecodeSample(BytesCode(bytes[3 * k..3 * k + 3]))
    {
      var raw: int := (bytes[3 * i] as int) * 0x1_0000 + (bytes[3 * i + 1] as int) * 0x100 + bytes[3 * i + 2];
      ThreeByteValue(bytes[3 * i..3 * i + 3]);
      var pcm := if raw >= 0x80_0000 then raw - 0x100_0000 else raw;
      samples[i] := DecodeSample(pcm);
    }
    return true;
  }

  lemma ThreeByteValue(b: seq<u8>)
    requires |b| == 3
    ensures Value(b) == (b[0] as int) * 0x1_0000 + (b[1] as int) * 0x100 + b[2]
  {
    assert b[..2][..1] == [b[0]] && b[..2][1] == b[1];
    assert [b[0]][..0] == [];
    assert Value([b[0]]) == b[0];
  }

  /** A block that was encoded decodes to every sample within 1.5 steps of the clamped
      original. */
  lemma BlockRoundTrip(samples: seq<real>, bytes: seq<u8>, decoded: seq<real>, i: nat)
    requires IsEncoding(samples, bytes) && IsDecoding(bytes, decoded) && i < |samples|
    ensures |decoded| == |samples| && decoded[i] == DecodeSample(EncodeSample(samples[i]))
    ensures -1.5 / 8_388_607.0 <= decoded[i] - Clamp(samples[i]) <= 1.5 / 8_388_607.0
  {
    hide EncodeSample, DecodeSample, CodeBytes, BytesCode, Clamp;
    CodeRoundTrip(EncodeSample(samples[i]));
    CodecError(samples[i]);
    assert samples[i] == samples[i] && decoded[i] == decoded[i];
  }

  /** Halfway between two codes the even one is taken. */
  lemma TiesGoToEven(n: int)
    ensures RoundEven(n as real + 0.5) == if n % 2 == 0 then n else n + 1
  {
  }
}
