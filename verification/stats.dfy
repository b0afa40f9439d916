/**
 * The arithmetic both summary paths share: sums, means, the population
 * variance and the guarded percentage, over exact reals.
 */
module Stats {
  /** `sum(xs)`. */
  function Sum(xs: seq<real>): real {
    if xs == [] then 0.0 else xs[0] + Sum(xs[1..])
  }

  lemma {:induction false} SumAppend(a: seq<real>, b: seq<real>)
    ensures Sum(a + b) == Sum(a) + Sum(b)
  {
    if a == [] {
      assert a + b == b;
    } else {
      assert (a + b)[0] == a[0];
      assert (a + b)[1..] == a[1..] + b;
      SumAppend(a[1..], b);
    }
  }

  /** `sum(xs) / len(xs)`; the callers only divide when the list is non-empty. */
  function Mean(xs: seq<real>): real
    requires xs != []
  {
    Sum(xs) / (|xs| as real)
  }

  /** `m` is the mean of the non-empty `xs`: times the count it gives back the sum. */
  predicate IsMeanOf(m: real, xs: seq<real>) {
    xs != [] && m * (|xs| as real) == Sum(xs)
  }

  /** `p` is `value` as a percentage of `total`, and 0 when the total is not positive. */
  predicate IsPercentOf(p: real, value: real, total: real) {
    && (total <= 0.0 ==> p == 0.0)
    && (total > 0.0 ==> p * total == value * 100.0)
  }

  /** The mean times the count gives back the sum. */
  lemma MeanTimesCount(xs: seq<real>)
    requires xs != []
    ensures Mean(xs) * (|xs| as real) == Sum(xs)
  {
  }

  /** The mean is the only number that times the count gives back the sum. */
  lemma MeanOfIsMean(m: real, xs: seq<real>)
    requires IsMeanOf(m, xs)
    ensures m == Mean(xs)
  {
  }

  /** The guarded percentage is the only number meeting `IsPercentOf`. */
  lemma PercentOfIsPercent(p: real, value: real, total: real)
    requires IsPercentOf(p, value, total)
    ensures p == Percent(value, total)
  {
  }

  /** A sum of terms each within `[lo, hi]` is within `[n * lo, n * hi]`. */
  lemma {:induction false} SumBounds(xs: seq<real>, lo: real, hi: real)
    requires forall i :: 0 <= i < |xs| ==> lo <= xs[i] <= hi
    ensures (|xs| as real) * lo <= Sum(xs) <= (|xs| as real) * hi
  {
    if xs != [] {
      SumBounds(xs[1..], lo, hi);
    }
  }

  /** The mean lies between the smallest and the largest value. */
  lemma MeanBounds(xs: seq<real>, lo: real, hi: real)
    requires xs != []
    requires forall i :: 0 <= i < |xs| ==> lo <= xs[i] <= hi
    ensures lo <= Mean(xs) <= hi
  {
    SumBounds(xs, lo, hi);
    var n := |xs| as real;
    DivideBounds(Sum(xs), n, lo, hi);
  }

  lemma DivideBounds(s: real, n: real, lo: real, hi: real)
    requires n > 0.0 && n * lo <= s <= n * hi
    ensures lo <= s / n <= hi
  {
    assert s / n * n == s;
  }

  /** The sum of squared deviations from `avg`. */
  function SquaredDeviations(xs: seq<real>, avg: real): (r: real)
    ensures r >= 0.0
  {
    if xs == [] then 0.0
    else
      SquarePositive(xs[0] - avg);
      Square(xs[0] - avg) + SquaredDeviations(xs[1..], avg)
  }

  /** `x ** 2`. */
  function Square(x: real): real {
    x * x
  }

  lemma SquarePositive(x: real)
    ensures Square(x) >= 0.0
  {
    if x < 0.0 {
      assert x * x == (-x) * (-x);
    }
  }

  /** `sum((x - avg) ** 2 for x in xs) / n`, the population variance. */
  function Variance(xs: seq<real>): (v: real)
    requires xs != []
    ensures v >= 0.0
  {
    SquaredDeviations(xs, Mean(xs)) / (|xs| as real)
  }

  /** Equal values have no spread. */
  lemma {:induction false} NoSpread(xs: seq<real>, c: real)
    requires forall i :: 0 <= i < |xs| ==> xs[i] == c
    ensures SquaredDeviations(xs, c) == 0.0
  {
    if xs != [] {
      NoSpread(xs[1..], c);
    }
  }

  /** `(value / total * 100) if total > 0 else 0.0`. */
  function Percent(value: real, total: real): (p: real)
    ensures total <= 0.0 ==> p == 0.0
    ensures total > 0.0 ==> p * total == value * 100.0
  {
    if total > 0.0 then value / total * 100.0 else 0.0
  }

  /** A score within `[0, total]` is a percentage within `[0, 100]`. */
  lemma PercentRange(value: real, total: real)
    requires total > 0.0 && 0.0 <= value <= total
    ensures 0.0 <= Percent(value, total) <= 100.0
  {
    DivideBounds(value * 100.0, total, 0.0, 100.0);
    assert Percent(value, total) == value * 100.0 / total;
  }
}
