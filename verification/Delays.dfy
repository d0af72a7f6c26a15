/** Delays in nanoseconds, proportional jitter, and doubling. */
module Delays {
  /** A jitter ratio between zero and one; every finite `f64` is such a fraction. */
  datatype Ratio = Ratio(num: nat, den: nat)

  predicate ValidRatio(r: Ratio) {
    0 < r.den && r.num <= r.den
  }

  lemma MulMono(a: nat, b: nat, d: nat)
    requires a <= b
    ensures a * d <= b * d
  {
  }

  lemma ScaleMono(d: nat, a: nat, b: nat)
    requires a <= b
    ensures d * a <= d * b
  {
  }

  /** `x / d`, rounded to the nearest integer. */
  function NearestQuotient(x: nat, d: nat): nat
    requires d > 0
  {
    (2 * x + d) / (2 * d)
  }

  lemma QuotientRange(y: nat, e: nat)
    requires e > 0
    ensures y / e * e <= y < (y / e + 1) * e
  {
  }

  lemma QuotientAtLeast(k: nat, d: nat, x: int)
    requires d > 0 && x >= 0
    ensures k <= x / d <==> k * d <= x
  {
    QuotientRange(x, d);
    if k <= x / d {
      MulMono(k, x / d, d);
    } else {
      MulMono(x / d + 1, k, d);
    }
  }

  lemma NearestBounds(x: nat, d: nat, low: nat, high: nat)
    requires d > 0 && low * d <= x <= high * d
    ensures low <= NearestQuotient(x, d) <= high
  {
    var q := NearestQuotient(x, d);
    QuotientRange(2 * x + d, 2 * d);
    if q < low {
      MulMono(q + 1, low, 2 * d);
    }
    if q > high {
      MulMono(high + 1, q, 2 * d);
    }
  }

  lemma NearestMonotone(x: nat, y: nat, d: nat)
    requires d > 0 && x <= y
    ensures NearestQuotient(x, d) <= NearestQuotient(y, d)
  {
    var p, q := NearestQuotient(x, d), NearestQuotient(y, d);
    QuotientRange(2 * x + d, 2 * d);
    QuotientRange(2 * y + d, 2 * d);
    if q < p {
      MulMono(q + 1, p, 2 * d);
    }
  }

  /** The least jittered value: `(1 - ratio) * delay`, rounded to the nearest nanosecond. */
  function JitterMin(ratio: Ratio, delay: nat): (r: nat)
    requires ValidRatio(ratio)
    ensures r <= delay
    ensures ratio.num == 0 ==> r == delay
  {
    MulMono(ratio.den - ratio.num, ratio.den, delay);
    NearestBounds((ratio.den - ratio.num) * delay, ratio.den, if ratio.num == 0 then delay else 0, delay);
    NearestQuotient((ratio.den - ratio.num) * delay, ratio.den)
  }

  /** The largest jittered value: `(1 + ratio) * delay`, rounded to the nearest nanosecond. */
  function JitterMax(ratio: Ratio, delay: nat): (r: nat)
    requires ValidRatio(ratio)
    ensures delay <= r <= 2 * delay
    ensures ratio.num == 0 ==> r == delay
  {
    MulMono(ratio.den, ratio.den + ratio.num, delay);
    MulMono(ratio.den + ratio.num, 2 * ratio.den, delay);
    NearestBounds((ratio.den + ratio.num) * delay, ratio.den, delay, if ratio.num == 0 then delay else 2 * delay);
    NearestQuotient((ratio.den + ratio.num) * delay, ratio.den)
  }

  /** A value the random draw can produce. */
  predicate Jittered(ratio: Ratio, delay: nat, drawn: nat)
    requires ValidRatio(ratio)
  {
    JitterMin(ratio, delay) <= drawn <= JitterMax(ratio, delay)
  }

  lemma JitterMonotone(ratio: Ratio, a: nat, b: nat)
    requires ValidRatio(ratio) && a <= b
    ensures JitterMin(ratio, a) <= JitterMin(ratio, b)
    ensures JitterMax(ratio, a) <= JitterMax(ratio, b)
  {
    hide NearestQuotient;
    ScaleMono(ratio.den - ratio.num, a, b);
    ScaleMono(ratio.den + ratio.num, a, b);
    NearestMonotone((ratio.den - ratio.num) * a, (ratio.den - ratio.num) * b, ratio.den);
    NearestMonotone((ratio.den + ratio.num) * a, (ratio.den + ratio.num) * b, ratio.den);
  }

  function Pow2(n: nat): (r: nat)
    ensures r >= 1
  {
    if n == 0 then 1 else 2 * Pow2(n - 1)
  }
}
