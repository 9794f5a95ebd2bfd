/** The arithmetic of the delay exchange and of the offset filter (Core/PTP.cpp,
    Engine/PTPClient.cpp; sections 11.2 and 11.3 of IEEE 1588-2008). Times are whole
    nanoseconds, corrections are multiples of 2^-16 ns, division truncates. */
module PtpMath {
  import opened Common

  const SCALE: int := 65536
  const MAX_DELAY: int := 20_000_000
  const IN_STEP: int := 2_000_000

  datatype Measurement = Measurement(offset: int, delay: int)

  function ScaledToNanoseconds(scaled: int): int {
    TruncDiv(scaled, SCALE)
  }

  /** One direction of the exchange with its correction removed. */
  function Corrected(sent: int, received: int, correction: int): int {
    received - sent - ScaledToNanoseconds(correction)
  }

  function CalculateE2E(origin: int, ingress: int, egress: int, receipt: int, syncCorrection: int, delayCorrection: int):
    Option<Measurement>
  {
    var down, up := Corrected(origin, ingress, syncCorrection), Corrected(egress, receipt, delayCorrection);
    var delay, offset := TruncDiv(down + up, 2), TruncDiv(down - up, 2);
    if delay < 0 then None else Some(Measurement(offset, delay))
  }

  /** Truncation loses less than one divisor and never changes the sign. */
  lemma HalfBounds(a: int)
    ensures -2 < a - 2 * TruncDiv(a, 2) < 2
    ensures a >= 0 ==> TruncDiv(a, 2) >= 0
    ensures a <= 0 ==> TruncDiv(a, 2) <= 0
  {
  }

  lemma EighthBounds(a: int)
    ensures a >= 0 ==> 0 <= 8 * TruncDiv(a, 8) <= a < 8 * TruncDiv(a, 8) + 8
    ensures a <= 0 ==> 8 * TruncDiv(a, 8) - 8 < a <= 8 * TruncDiv(a, 8) <= 0
  {
  }

  lemma ScaledBounds(a: int)
    ensures -SCALE < a - SCALE * ScaledToNanoseconds(a) < SCALE
    ensures a >= 0 ==> ScaledToNanoseconds(a) >= 0
    ensures a <= 0 ==> ScaledToNanoseconds(a) <= 0
  {
  }

  /** On a symmetric path with whole-nanosecond corrections the exchange recovers the
      clock offset and the path delay exactly, and reports a negative delay as none. */
  lemma SymmetricPathIsExact(origin: int, egress: int, offset: int, delay: int, c1: int, c2: int)
    ensures CalculateE2E(origin, origin + offset + delay + c1, egress, egress - offset + delay + c2,
                         c1 * SCALE, c2 * SCALE)
            == if delay < 0 then None else Some(Measurement(offset, delay))
  {
  }

  /** On any path the offset errs by at most half the asymmetry plus 1.5 ns. Offset,
      path delays and corrections are in units of 2^-16 ns here. */
  lemma OffsetErrorIsHalfTheAsymmetry(origin: int, ingress: int, egress: int, receipt: int, c1: int, c2: int,
                                      offset: int, downDelay: int, upDelay: int)
    requires SCALE * (ingress - origin) == downDelay + offset + c1
    requires SCALE * (receipt - egress) == upDelay - offset + c2
    ensures var m := CalculateE2E(origin, ingress, egress, receipt, c1, c2);
            m.Some? ==>
              && 2 * Abs(SCALE * m.value.offset - offset) < Abs(downDelay - upDelay) + 3 * SCALE
              && Abs(2 * SCALE * m.value.delay - (downDelay + upDelay)) < 3 * SCALE
  {
    var down, up := Corrected(origin, ingress, c1), Corrected(egress, receipt, c2);
    var m := CalculateE2E(origin, ingress, egress, receipt, c1, c2);
    assert m.Some? ==> m.value == Measurement(TruncDiv(down - up, 2), TruncDiv(down + up, 2));
    hide TruncDiv, CalculateE2E, ScaledToNanoseconds;
    ScaledBounds(c1);
    ScaledBounds(c2);
    HalfBounds(down + up);
    HalfBounds(down - up);
    HalfSums(down, up, TruncDiv(down - up, 2), TruncDiv(down + up, 2), downDelay + offset, upDelay - offset);
  }

  lemma HalfSums(down: int, up: int, difference: int, sum: int, exactDown: int, exactUp: int)
    requires -SCALE < SCALE * down - exactDown < SCALE && -SCALE < SCALE * up - exactUp < SCALE
    requires -2 < down - up - 2 * difference < 2 && -2 < down + up - 2 * sum < 2
    ensures -3 * SCALE < 2 * SCALE * difference - (exactDown - exactUp) < 3 * SCALE
    ensures -3 * SCALE < 2 * SCALE * sum - (exactDown + exactUp) < 3 * SCALE
  {
  }

  predicate Fits64(x: int) {
    -TWO63 <= x < TWO63
  }

  /** No intermediate value leaves 64 bits while both corrected differences stay below
      2^62, and the measurement itself is then below 2^62. */
  lemma NoOverflow(origin: int, ingress: int, egress: int, receipt: int, c1: int, c2: int)
    requires Fits64(c1) && Fits64(c2)
    requires var down, up := Corrected(origin, ingress, c1), Corrected(egress, receipt, c2);
             2 * Abs(down) < TWO63 && 2 * Abs(up) < TWO63
    ensures Fits64(ingress - origin) && Fits64(receipt - egress)
    ensures var down, up := Corrected(origin, ingress, c1), Corrected(egress, receipt, c2);
            Fits64(down + up) && Fits64(down - up)
    ensures var m := CalculateE2E(origin, ingress, egress, receipt, c1, c2);
            m.Some? ==> 2 * Abs(m.value.offset) < TWO63 && 2 * m.value.delay < TWO63
  {
  }

  // ----- The one-eighth filter -----

  /** The sample is close enough to the filter value to be averaged in. */
  predicate InStep(filtered: Option<int>, sample: int) {
    filtered.Some? && Abs(sample - filtered.value) <= IN_STEP
  }

  function Filter(filtered: Option<int>, sample: int): int {
    if InStep(filtered, sample) then filtered.value + TruncDiv(sample - filtered.value, 8) else sample
  }

  /** Within 2 ms the filter is seven parts of its old value and one of the sample, rounded
      toward the old value; further away it starts again. */
  lemma FilterWeighs(filtered: int, sample: int)
    ensures var f := Filter(Some(filtered), sample);
            if -2_000_000 <= sample - filtered <= 2_000_000 then
              if sample >= filtered then 8 * f <= 7 * filtered + sample < 8 * f + 8
              else 8 * f - 8 < 7 * filtered + sample <= 8 * f
            else f == sample
    ensures Filter(None, sample) == sample
  {
    EighthBounds(sample - filtered);
    hide TruncDiv;
  }

  /** The filter after a run of samples. */
  function Filtered(samples: seq<int>): Option<int> {
    if samples == [] then None
    else Some(Filter(Filtered(samples[..|samples| - 1]), samples[|samples| - 1]))
  }

  /** Where the filter last restarted: the newest sample that was not in step. */
  function LastRestart(samples: seq<int>): (r: nat)
    requires samples != []
    ensures r < |samples|
  {
    var n := |samples| - 1;
    if n > 0 && InStep(Filtered(samples[..n]), samples[n]) then LastRestart(samples[..n]) else n
  }

  /** The filter value stays inside the hull of the samples since its last restart. */
  lemma {:induction false} FilterStaysInHull(samples: seq<int>, lo: int, hi: int)
    requires samples != []
    requires forall i :: LastRestart(samples) <= i < |samples| ==> lo <= samples[i] <= hi
    ensures lo <= Filtered(samples).value <= hi
  {
    var n := |samples| - 1;
    if n > 0 && InStep(Filtered(samples[..n]), samples[n]) {
      FilterStaysInHull(samples[..n], lo, hi);
      var f := Filtered(samples[..n]).value;
      EighthBounds(samples[n] - f);
      assert lo <= samples[n] <= hi;
    }
  }

  /** Below 2^62, so that one subtraction stays inside 64 bits. */
  predicate Half64(x: int) {
    2 * Abs(x) < TWO63
  }

  /** Offsets below 2^62, as `NoOverflow` gives them, keep the filter there too: its
      subtraction, the absolute value of that and the new value all fit 64 bits. */
  lemma FilterFits(samples: seq<int>, sample: int)
    requires Half64(sample) && forall i :: 0 <= i < |samples| ==> Half64(samples[i])
    ensures samples != [] ==>
      Half64(Filtered(samples).value) && Abs(sample - Filtered(samples).value) < TWO63
    ensures Half64(Filter(Filtered(samples), sample))
  {
    var most := TWO63 / 2 - 1;
    if samples != [] {
      FilterStaysInHull(samples, -most, most);
      EighthBounds(sample - Filtered(samples).value);
    }
  }

  /** `n` more measurements of the same offset. */
  function Settle(filtered: int, sample: int, n: nat): int
    decreases n
  {
    if n == 0 then filtered else Settle(Filter(Some(filtered), sample), sample, n - 1)
  }

  /** One step removes an eighth of the distance, and nothing below eight. */
  lemma FilterStep(filtered: int, sample: int)
    requires Abs(sample - filtered) <= IN_STEP
    ensures var f := Filter(Some(filtered), sample);
            && Abs(sample - f) <= Abs(sample - filtered)
            && 8 * (Abs(sample - f) - 7) <= 7 * Abs(sample - filtered) - 49
            && (Abs(sample - filtered) <= 7 ==> f == filtered)
  {
  }

  lemma ThreeSteps(filtered: int, sample: int)
    requires Abs(sample - filtered) <= IN_STEP
    ensures var f := Settle(filtered, sample, 3);
            Abs(sample - f) <= IN_STEP && 512 * (Abs(sample - f) - 7) <= 343 * (Abs(sample - filtered) - 7)
  {
  }

  lemma {:induction false} SettleAppend(filtered: int, sample: int, m: nat, n: nat)
    ensures Settle(filtered, sample, m + n) == Settle(Settle(filtered, sample, m), sample, n)
    decreases m
  {
    if m > 0 {
      SettleAppend(Filter(Some(filtered), sample), sample, m - 1, n);
    }
  }

  lemma {:induction false} Settled(filtered: int, sample: int, n: nat)
    requires Abs(sample - filtered) <= 7
    ensures Settle(filtered, sample, n) == filtered
    decreases n
  {
    if n > 0 {
      FilterStep(filtered, sample);
      Settled(filtered, sample, n - 1);
    }
  }

  /** In step, and less than `n` above the 7 ns the filter cannot remove. */
  predicate Near(filtered: int, sample: int, n: nat) {
    Abs(sample - filtered) <= IN_STEP && Abs(sample - filtered) - 7 < n
  }

  lemma SixSteps(filtered: int, sample: int, n: nat)
    requires n > 0 && Near(filtered, sample, 2 * n)
    ensures Near(Settle(filtered, sample, 6), sample, n)
  {
    hide Settle;
    ThreeSteps(filtered, sample);
    var half := Settle(filtered, sample, 3);
    ThreeSteps(half, sample);
    SettleAppend(filtered, sample, 3, 3);
    if Abs(sample - filtered) <= 7 {
      Settled(filtered, sample, 3);
      Settled(filtered, sample, 6);
    }
  }

  lemma {:induction false} SettlesInHalvings(filtered: int, sample: int, k: nat)
    requires Near(filtered, sample, Pow2(k))
    ensures Near(Settle(filtered, sample, 6 * k), sample, 1)
    decreases k
  {
    if k > 0 {
      assert Pow2(k) == 2 * Pow2(k - 1) && Pow2(k - 1) > 0;
      hide *;
      SixSteps(filtered, sample, Pow2(k - 1));
      SettlesInHalvings(Settle(filtered, sample, 6), sample, k - 1);
      SettleAppend(filtered, sample, 6, 6 * (k - 1));
    }
  }

  /** A constant sample the filter accepts brings it within 7 ns in at most 126
      measurements, and there it stays. */
  lemma FilterConverges(filtered: int, sample: int, n: nat)
    requires Abs(sample - filtered) <= IN_STEP && n >= 126
    ensures Abs(sample - Settle(filtered, sample, n)) <= 7
    ensures Settle(filtered, sample, n) == Settle(filtered, sample, 126)
  {
    var k := Halvings();
    hide Settle, Pow2, Abs;
    SettlesInHalvings(filtered, sample, k);
    SettleAppend(filtered, sample, 126, n - 126);
    Settled(Settle(filtered, sample, 126), sample, n - 126);
  }

  lemma Halvings() returns (k: nat)
    ensures k == 21 && Pow2(k) == 2_097_152
  {
    assert Pow2(7) == 128;
    assert Pow2(14) == 16_384;
    k := 21;
  }
}
