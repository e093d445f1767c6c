/** Rounding of the remaining percentage to two decimals, as numpy does it:
    scale by 100, round to the nearest integer with ties to even, scale back.
    Values are exact reals; binary floating point is not modelled. */
module Rounding {

  /** Round to the nearest integer, ties to the even neighbour. */
  function RoundHalfEven(y: real): (n: int)
    ensures y - 0.5 <= n as real <= y + 0.5
    ensures (n as real == y - 0.5 || n as real == y + 0.5) ==> n % 2 == 0
  {
    var f := y.Floor;
    var frac := y - f as real;
    if frac < 0.5 then f
    else if frac > 0.5 then f + 1
    else if f % 2 == 0 then f
    else f + 1
  }

  /** `round(x, 2)`. */
  function Round2(x: real): (r: real)
    ensures x - 0.005 <= r <= x + 0.005
    ensures (r * 100.0).Floor as real == r * 100.0
  {
    RoundHalfEven(x * 100.0) as real / 100.0
  }

  /** Whole numbers of hundredths are left as they are. */
  lemma Round2Exact(k: int)
    ensures Round2(k as real / 100.0) == k as real / 100.0
  {
    assert (k as real / 100.0) * 100.0 == k as real;
  }

  /** A whole quantity is 100 percent of itself. */
  lemma WholeIsHundredPercent(x: real)
    requires x != 0.0
    ensures Round2(100.0 * x / x) == 100.0
  {
    Round2Exact(10000);
    assert 100.0 * x / x == 10000 as real / 100.0;
  }

  /** A shortfall is never shown as a positive percentage: the rounded ratio
      of a negative amount to a positive one is at most zero. */
  lemma NegativeRatioRoundsToAtMostZero(a: real, b: real)
    requires a < 0.0 && b > 0.0
    ensures Round2(100.0 * a / b) <= 0.0
  {
    var ratio := 100.0 * a / b;
    assert ratio * b == 100.0 * a;
    assert ratio < 0.0;
    var n := RoundHalfEven(ratio * 100.0);
    assert n as real <= ratio * 100.0 + 0.5 < 0.5;
  }

  /** Below an even integer `k`, ties round up to `k`: the rounded value is
      below `k` exactly when `y` is below `k - 0.5`. */
  lemma RoundHalfEvenBelowEven(y: real, k: int)
    requires k % 2 == 0
    ensures RoundHalfEven(y) < k <==> y < k as real - 0.5
  {
  }

  /** A two-decimal threshold `k / 100` with `k` even is crossed by the rounded
      value exactly when the unrounded value is below `(k - 0.5) / 100`. */
  lemma {:induction false} Round2BelowThreshold(x: real, k: int)
    requires k % 2 == 0
    ensures Round2(x) < k as real / 100.0 <==> x < (k as real - 0.5) / 100.0
  {
    RoundHalfEvenBelowEven(x * 100.0, k);
    var n := RoundHalfEven(x * 100.0);
    assert Round2(x) < k as real / 100.0 <==> n < k;
    assert x < (k as real - 0.5) / 100.0 <==> x * 100.0 < k as real - 0.5;
  }
}
