/**
  Reductions over a column of exact reals: the sum, mean, minimum, maximum and
  sum of squared deviations that pandas' `sum`, `mean`, `min`, `max` and `var`
  compute over the non-NaN entries of a Series.
 */
module Aggregates {

  function Sum(xs: seq<real>): real
    decreases |xs|
  {
    if |xs| == 0 then 0.0 else Sum(xs[..|xs| - 1]) + xs[|xs| - 1]
  }

  function Mean(xs: seq<real>): real
    requires |xs| > 0
  {
    Sum(xs) / |xs| as real
  }

  /** The least element of a non-empty column. */
  function Min(xs: seq<real>): (m: real)
    requires |xs| > 0
    ensures m in xs
    ensures forall i :: 0 <= i < |xs| ==> m <= xs[i]
    decreases |xs|
  {
    if |xs| == 1 then xs[0]
    else
      var m' := Min(xs[..|xs| - 1]);
      if xs[|xs| - 1] < m' then xs[|xs| - 1] else m'
  }

  /** The greatest element of a non-empty column. */
  function Max(xs: seq<real>): (m: real)
    requires |xs| > 0
    ensures m in xs
    ensures forall i :: 0 <= i < |xs| ==> xs[i] <= m
    decreases |xs|
  {
    if |xs| == 1 then xs[0]
    else
      var m' := Max(xs[..|xs| - 1]);
      if xs[|xs| - 1] > m' then xs[|xs| - 1] else m'
  }

  /** Every entry equals every other one: a flat price history. */
  predicate Constant(xs: seq<real>) {
    forall i, j :: 0 <= i < |xs| && 0 <= j < |xs| ==> xs[i] == xs[j]
  }

  /**
    Real multiplication behind a function symbol: facts about a product are
    proved once, over distinct variables, and reused through this name.
   */
  function Times(a: real, b: real): real {
    a * b
  }

  function Square(d: real): (r: real)
    ensures r >= 0.0
  {
    Times(d, d)
  }

  /** The sum of squared deviations of the entries from `m`. */
  function SquaredDeviation(xs: seq<real>, m: real): (r: real)
    ensures r >= 0.0
    decreases |xs|
  {
    if |xs| == 0 then 0.0
    else
      SquaredDeviation(xs[..|xs| - 1], m) + Square(xs[|xs| - 1] - m)
  }

  /**
    The sample variance with Bessel's correction (denominator n - 1), as
    pandas' `var(ddof=1)`; it is NaN (None here) for fewer than two values.
   */
  function SampleVariance(xs: seq<real>): (r: real)
    requires |xs| >= 2
  {
    SquaredDeviation(xs, Mean(xs)) / (|xs| - 1) as real
  }

  lemma {:induction false} SumConcat(a: seq<real>, b: seq<real>)
    ensures Sum(a + b) == Sum(a) + Sum(b)
    decreases |b|
  {
    if |b| == 0 {
      assert a + b == a;
    } else {
      assert (a + b)[..|a + b| - 1] == a + b[..|b| - 1];
      SumConcat(a, b[..|b| - 1]);
    }
  }

  /** Bounding every entry bounds the sum. */
  lemma {:induction false} SumBounds(xs: seq<real>, lo: real, hi: real)
    requires forall i :: 0 <= i < |xs| ==> lo <= xs[i] <= hi
    ensures |xs| as real * lo <= Sum(xs) <= |xs| as real * hi
    decreases |xs|
  {
    if |xs| > 0 {
      var init := xs[..|xs| - 1];
      var k := |init| as real;
      SumBounds(init, lo, hi);
      assert Sum(xs) == Sum(init) + xs[|xs| - 1];
      assert |xs| as real * lo == k * lo + lo;
      assert |xs| as real * hi == k * hi + hi;
    }
  }

  /** Dividing bounds on a sum by the positive count `n`. */
  lemma MeanBetween(lo: real, hi: real, s: real, n: real)
    requires n > 0.0
    requires n * lo <= s <= n * hi
    ensures lo <= s / n <= hi
  {
  }

  lemma SumConstant(xs: seq<real>, c: real)
    requires forall i :: 0 <= i < |xs| ==> xs[i] == c
    ensures Sum(xs) == |xs| as real * c
  {
    SumBounds(xs, c, c);
  }

  /** Bounding every entry bounds the mean. */
  lemma MeanBounded(xs: seq<real>, lo: real, hi: real)
    requires |xs| > 0
    requires forall i :: 0 <= i < |xs| ==> lo <= xs[i] <= hi
    ensures lo <= Mean(xs) <= hi
  {
    SumBounds(xs, lo, hi);
    MeanBetween(lo, hi, Sum(xs), |xs| as real);
  }

  /** A sum of non-negative entries is non-negative. */
  lemma {:induction false} SumNonNegative(xs: seq<real>)
    requires forall i :: 0 <= i < |xs| ==> xs[i] >= 0.0
    ensures Sum(xs) >= 0.0
    decreases |xs|
  {
    if |xs| > 0 {
      SumNonNegative(xs[..|xs| - 1]);
    }
  }

  /** A non-empty sum of positive entries is positive. */
  lemma {:induction false} SumPositive(xs: seq<real>)
    requires |xs| > 0
    requires forall i :: 0 <= i < |xs| ==> xs[i] > 0.0
    ensures Sum(xs) > 0.0
    decreases |xs|
  {
    if |xs| > 1 {
      SumPositive(xs[..|xs| - 1]);
    }
  }

  /** The mean times the count gives back the total. */
  lemma MeanTimesCount(xs: seq<real>)
    requires |xs| > 0
    ensures Times(Mean(xs), |xs| as real) == Sum(xs)
  {
    DivMul(Sum(xs), |xs| as real);
  }

  /** The mean of a non-empty column lies between its minimum and maximum. */
  lemma MeanWithinRange(xs: seq<real>)
    requires |xs| > 0
    ensures Min(xs) <= Mean(xs) <= Max(xs)
  {
    MeanBounded(xs, Min(xs), Max(xs));
  }

  lemma NonNegativeTimes(a: real, b: real)
    requires a >= 0.0 && b >= 0.0
    ensures Times(a, b) >= 0.0
  {
  }

  lemma PositiveTimesPositive(a: real, b: real)
    requires a > 0.0 && b > 0.0
    ensures Times(a, b) > 0.0
  {
  }

  lemma NegativeTimesNegative(a: real, b: real)
    requires a < 0.0 && b < 0.0
    ensures Times(a, b) > 0.0
  {
  }

  lemma SquarePositive(d: real)
    requires d != 0.0
    ensures Square(d) > 0.0
  {
    if d > 0.0 {
      PositiveTimesPositive(d, d);
    } else {
      NegativeTimesNegative(d, d);
    }
  }

  /** One entry away from `m` makes the squared deviation strictly positive. */
  lemma {:induction false} SquaredDeviationPositive(xs: seq<real>, m: real, i: nat)
    requires i < |xs| && xs[i] != m
    ensures SquaredDeviation(xs, m) > 0.0
    decreases |xs|
  {
    var init := xs[..|xs| - 1];
    var d := xs[|xs| - 1] - m;
    if i == |xs| - 1 {
      SquarePositive(d);
    } else {
      assert init[i] == xs[i];
      SquaredDeviationPositive(init, m, i);
    }
  }

  /** Entries all equal to `m` give a zero squared deviation. */
  lemma {:induction false} SquaredDeviationOfEqual(xs: seq<real>, m: real)
    requires forall i :: 0 <= i < |xs| ==> xs[i] == m
    ensures SquaredDeviation(xs, m) == 0.0
    decreases |xs|
  {
    if |xs| > 0 {
      var init := xs[..|xs| - 1];
      assert forall i :: 0 <= i < |init| ==> init[i] == xs[i];
      SquaredDeviationOfEqual(init, m);
      assert xs[|xs| - 1] - m == 0.0;
    }
  }

  /** The sample variance is never negative and vanishes exactly on a flat column. */
  lemma VarianceZeroIffConstant(xs: seq<real>)
    requires |xs| >= 2
    ensures SampleVariance(xs) >= 0.0
    ensures SampleVariance(xs) == 0.0 <==> Constant(xs)
  {
    var m := Mean(xs);
    var n1 := (|xs| - 1) as real;
    assert SampleVariance(xs) == SquaredDeviation(xs, m) / n1;
    if Constant(xs) {
      SumConstant(xs, xs[0]);
      assert m == xs[0];
      SquaredDeviationOfEqual(xs, m);
    } else {
      var i, j :| 0 <= i < |xs| && 0 <= j < |xs| && xs[i] != xs[j];
      if xs[i] != m {
        SquaredDeviationPositive(xs, m, i);
      } else {
        SquaredDeviationPositive(xs, m, j);
      }
    }
  }

  /** The sum of the squared entries. */
  function SumSquares(xs: seq<real>): real
    decreases |xs|
  {
    if |xs| == 0 then 0.0 else SumSquares(xs[..|xs| - 1]) + Square(xs[|xs| - 1])
  }

  /** (x - m)^2 == x^2 - 2mx + m^2, over distinct variables. */
  lemma SquareOfDifference(x: real, m: real)
    ensures Square(x - m) == Square(x) - 2.0 * Times(m, x) + Square(m)
  {
  }

  /** One more entry `x` in the expansion of the squared deviations. */
  lemma ExpandStep(sd: real, ss: real, sm: real, k: real, x: real, m: real)
    requires sd == ss - 2.0 * Times(m, sm) + Times(k, Square(m))
    ensures sd + Square(x - m) == (ss + Square(x)) - 2.0 * Times(m, sm + x) + Times(k + 1.0, Square(m))
  {
    SquareOfDifference(x, m);
    assert Times(m, sm) + Times(m, x) == Times(m, sm + x);
    assert Times(k, Square(m)) + Square(m) == Times(k + 1.0, Square(m));
  }

  /** Expanding the squares: the sum of squared deviations from any centre `m`. */
  lemma {:induction false} SquaredDeviationExpand(xs: seq<real>, m: real)
    ensures SquaredDeviation(xs, m) == SumSquares(xs) - 2.0 * Times(m, Sum(xs)) + Times(|xs| as real, Square(m))
    decreases |xs|
  {
    if |xs| > 0 {
      var init := xs[..|xs| - 1];
      var x := xs[|xs| - 1];
      assert SquaredDeviation(init, m)
          == SumSquares(init) - 2.0 * Times(m, Sum(init)) + Times(|init| as real, Square(m)) by {
        SquaredDeviationExpand(init, m);
      }
      ExpandStep(SquaredDeviation(init, m), SumSquares(init), Sum(init), |init| as real, x, m);
    }
  }

  /** At the mean the cross terms collapse: -2 (s/n) s + n (s/n)^2 == -s^2/n. */
  lemma MeanCrossTerms(s: real, n: real)
    requires n > 0.0
    ensures -2.0 * Times(s / n, s) + Times(n, Square(s / n)) == -(Times(s, s) / n)
  {
    var m := s / n;
    assert s == m * n;
    assert Times(m, s) == m * m * n;
    assert Times(n, Square(m)) == m * m * n;
    assert Times(s, s) / n == m * m * n;
  }

  /**
    The textbook shortcut for the sample variance, an independent formula:
    (n - 1) times the variance is the sum of squares minus the squared sum
    over n. Dividing by n - 1 rather than n is what it pins down.
   */
  lemma VarianceShortcut(xs: seq<real>)
    requires |xs| >= 2
    ensures Times(SampleVariance(xs), (|xs| - 1) as real) == SumSquares(xs) - Times(Sum(xs), Sum(xs)) / |xs| as real
  {
    var n := |xs| as real;
    var sd := SquaredDeviation(xs, Mean(xs));
    assert Times(SampleVariance(xs), (|xs| - 1) as real) == sd by {
      DivMul(sd, (|xs| - 1) as real);
    }
    assert sd == SumSquares(xs) - 2.0 * Times(Sum(xs) / n, Sum(xs)) + Times(n, Square(Sum(xs) / n)) by {
      SquaredDeviationExpand(xs, Mean(xs));
    }
    MeanCrossTerms(Sum(xs), n);
  }

  // Facts of real arithmetic stated over distinct variables, so that the
  // solver meets each product or quotient once and the callers reason linearly.

  lemma DivMul(y: real, z: real)
    requires z != 0.0
    ensures (y / z) * z == y
  {
  }

  lemma DivUnique(x: real, y: real, z: real)
    requires z != 0.0 && x * z == y
    ensures x == y / z
  {
  }

  lemma MulAssoc(a: real, b: real, c: real)
    ensures (a * b) * c == a * (b * c)
  {
  }

  lemma MulDistrib(a: real, b: real, c: real)
    ensures (a + b) * c == a * c + b * c
  {
  }

  lemma DivNonNegative(y: real, z: real)
    requires y >= 0.0 && z > 0.0
    ensures y / z >= 0.0
  {
  }

  lemma DivPositive(y: real, z: real)
    requires y > 0.0 && z > 0.0
    ensures y / z > 0.0
  {
  }

  lemma DivMonotone(x: real, y: real, z: real)
    requires x <= y && z > 0.0
    ensures x / z <= y / z
  {
  }

  lemma MulDivCancel(x: real, z: real)
    requires z > 0.0
    ensures x * z / z == x
  {
  }
}
