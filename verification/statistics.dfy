/**
  The summary statistics of data_download.py: the average closing price, the
  price-fluctuation alert, the dispersion statistics of a column and the trend
  analysis. Quantities that need a square root (standard deviation,
  volatility, coefficient of variation) are not part of this model.
 */
module Statistics {
  import opened Wrappers
  import opened Aggregates
  import opened Series
  import opened Frames
  import Ieee

  // ---------------------------------------------------------------- calculate_average_price

  /**
    `calculate_average_price`: None without data or without a `Close` column
    (the KeyError is caught); NaN for an empty column; otherwise a finite
    value between the lowest and highest close that, times the number of
    closes, gives back their total.
   */
  function CalculateAveragePrice(data: Option<Frame>): (r: Option<Ieee.Float>)
    ensures r.None? <==> data.None? || data.value.close.None?
    ensures r.Some? && |data.value.close.value| == 0 ==> r.value.NaN?
    ensures r.Some? && |data.value.close.value| > 0 ==>
      var c := data.value.close.value;
      && r.value.Finite?
      && Min(c) <= r.value.v <= Max(c)
      && Times(r.value.v, |c| as real) == Sum(c)
  {
    if data.None? || data.value.close.None? then None
    else
      var c := data.value.close.value;
      if |c| == 0 then Some(Ieee.NaN)
      else
        MeanWithinRange(c);
        MeanTimesCount(c);
        Some(Ieee.Finite(Mean(c)))
  }

  // ---------------------------------------------------------------- notify_if_strong_fluctuations

  datatype FluctuationAlert = FluctuationAlert(ticker: string, minPrice: real, maxPrice: real, fluctuationPercent: Ieee.Float)

  /** (hi - lo) / lo * 100 in floating point: lo == 0 gives an infinity or NaN. */
  function RangePercent(lo: real, hi: real): Ieee.Float {
    Ieee.Mul(Ieee.Div(Ieee.Finite(hi - lo), Ieee.Finite(lo)), Ieee.Finite(100.0))
  }

  /**
    `notify_if_strong_fluctuations`: an alert carrying the ticker, the lowest
    and highest close and the range percentage when that percentage exceeds
    the threshold; None otherwise, and None without data, without a `Close`
    column or for an empty column (NaN never exceeds anything).
   */
  function NotifyIfStrongFluctuations(data: Option<Frame>, ticker: string, threshold: real): (r: Option<FluctuationAlert>)
    ensures data.None? || data.value.close.None? || |data.value.close.value| == 0 ==> r.None?
    ensures r.Some? ==>
      var c := data.value.close.value;
      && r.value.ticker == ticker
      && r.value.minPrice in c && r.value.maxPrice in c
      && (forall i :: 0 <= i < |c| ==> r.value.minPrice <= c[i] <= r.value.maxPrice)
      && Ieee.GreaterThan(r.value.fluctuationPercent, threshold)
  {
    if data.None? || data.value.close.None? || |data.value.close.value| == 0 then None
    else
      var c := data.value.close.value;
      var lo, hi := Min(c), Max(c);
      var pct := RangePercent(lo, hi);
      if Ieee.GreaterThan(pct, threshold) then Some(FluctuationAlert(ticker, lo, hi, pct)) else None
  }

  /**
    For positive prices the alert fires exactly when the real range percentage
    exceeds the threshold, and it reports that percentage.
   */
  lemma FluctuationAlertIff(f: Frame, ticker: string, threshold: real)
    requires f.close.Some? && |f.close.value| > 0
    requires forall i :: 0 <= i < |f.close.value| ==> f.close.value[i] > 0.0
    ensures var c := f.close.value;
      var pct := (Max(c) - Min(c)) / Min(c) * 100.0;
      && (NotifyIfStrongFluctuations(Some(f), ticker, threshold).Some? <==> pct > threshold)
      && (pct > threshold ==>
            NotifyIfStrongFluctuations(Some(f), ticker, threshold)
              == Some(FluctuationAlert(ticker, Min(c), Max(c), Ieee.Finite(pct))))
  {
  }

  /** A series that never moves never alerts, whatever its price, for a non-negative threshold. */
  lemma FlatSeriesNeverAlerts(f: Frame, ticker: string, threshold: real)
    requires f.close.Some? && Constant(f.close.value)
    requires threshold >= 0.0
    ensures NotifyIfStrongFluctuations(Some(f), ticker, threshold) == None
  {
    var c := f.close.value;
    if |c| > 0 {
      assert Min(c) == Max(c) by {
        var i :| 0 <= i < |c| && c[i] == Min(c);
        var j :| 0 <= j < |c| && c[j] == Max(c);
      }
    }
  }

  /**
    Nothing guards the division by the lowest close: a zero low with a
    positive high gives an infinite percentage, which exceeds every threshold.
   */
  lemma ZeroMinimumAlwaysAlerts(f: Frame, ticker: string, threshold: real)
    requires f.close.Some? && |f.close.value| > 0
    requires Min(f.close.value) == 0.0 < Max(f.close.value)
    ensures NotifyIfStrongFluctuations(Some(f), ticker, threshold)
         == Some(FluctuationAlert(ticker, 0.0, Max(f.close.value), Ieee.PosInf))
  {
  }

  // ---------------------------------------------------------------- calculate_standard_deviation

  /** The variance and range statistics; None stands for NaN. */
  datatype DispersionStats = DispersionStats(variance: Option<real>, minPrice: Option<real>, maxPrice: Option<real>, priceRange: Option<real>)

  /**
    The statistics over the defined values of a column: the sample variance
    (n - 1 in the denominator) needs two values, the extremes need one.
   */
  function Dispersion(values: seq<real>): (r: DispersionStats)
    ensures r.variance.Some? <==> |values| >= 2
    ensures r.minPrice.Some? <==> |values| > 0
    ensures r.maxPrice.Some? <==> |values| > 0
    ensures r.priceRange.Some? <==> |values| > 0
    ensures r.variance.Some? ==> r.variance.value >= 0.0 && (r.variance.value == 0.0 <==> Constant(values))
    ensures r.variance.Some? ==>
      Times(r.variance.value, (|values| - 1) as real) == SumSquares(values) - Times(Sum(values), Sum(values)) / |values| as real
    ensures |values| > 0 ==>
      && r.minPrice.value in values && r.maxPrice.value in values
      && (forall i :: 0 <= i < |values| ==> r.minPrice.value <= values[i] <= r.maxPrice.value)
      && r.priceRange.value == r.maxPrice.value - r.minPrice.value >= 0.0
      && r.minPrice.value <= Mean(values) <= r.maxPrice.value
  {
    if |values| == 0 then DispersionStats(None, None, None, None)
    else
      MeanWithinRange(values);
      var lo, hi := Min(values), Max(values);
      var variance :=
        if |values| >= 2 then
          VarianceZeroIffConstant(values);
          VarianceShortcut(values);
          Some(SampleVariance(values))
        else None;
      DispersionStats(variance, Some(lo), Some(hi), Some(hi - lo))
  }

  /** `data[column]`: the `Close` prices or a named derived column, None for a KeyError. */
  function Column(f: Frame, column: string): (r: Option<seq<Option<real>>>)
    ensures column == CloseColumn ==> (r.Some? <==> f.close.Some?)
    ensures column == CloseColumn && f.close.Some? ==> Defined(r.value) == f.close.value
    ensures column != CloseColumn ==> (r.Some? <==> column in f.columns)
    ensures column != CloseColumn && r.Some? ==> r.value == f.columns[column]
  {
    if column == CloseColumn then
      match f.close
      case None => None
      case Some(c) => DefinedLift(c); Some(Lift(c))
    else if column in f.columns then Some(f.columns[column])
    else None
  }

  /**
    `calculate_standard_deviation`: None without data or for a missing column;
    otherwise the statistics of the column's defined values, pandas skipping
    NaN.
   */
  function CalculateStandardDeviation(data: Option<Frame>, column: string): (r: Option<DispersionStats>)
    ensures r.None? <==> data.None? || Column(data.value, column).None?
    ensures r.Some? ==> r.value == Dispersion(Defined(Column(data.value, column).value))
  {
    match data
    case None => None
    case Some(f) =>
      match Column(f, column)
      case None => None
      case Some(values) => Some(Dispersion(Defined(values)))
  }

  /**
    On the `Close` column the statistics are those of the closes themselves:
    a frame without gaps in its prices loses nothing to NaN skipping.
   */
  lemma CloseDispersion(f: Frame)
    requires f.close.Some?
    ensures CalculateStandardDeviation(Some(f), CloseColumn) == Some(Dispersion(f.close.value))
  {
    assert Defined(Column(f, CloseColumn).value) == f.close.value;
  }

  // ---------------------------------------------------------------- advanced_price_analysis

  /**
    `pct_change()` as pandas computes it, close / previous close - 1, in
    floating point: undefined at the first bar, infinite or NaN after a zero
    close.
   */
  function PctChange(c: seq<real>): (r: seq<Ieee.Float>)
    ensures |r| == |c|
  {
    seq(|c|, t requires 0 <= t < |c| =>
      if t == 0 then Ieee.NaN
      else Ieee.Sub(Ieee.Div(Ieee.Finite(c[t]), Ieee.Finite(c[t - 1])), Ieee.Finite(1.0)))
  }

  /** The move from `prev` to `next` relative to `prev`. */
  function RelativeChange(prev: real, next: real): real
    requires prev != 0.0
  {
    (next - prev) / prev
  }

  /** The relative changes between consecutive closes, as exact reals. */
  function Returns(c: seq<real>): (r: seq<real>)
    requires forall i :: 0 <= i < |c| ==> c[i] != 0.0
    ensures |r| == if |c| == 0 then 0 else |c| - 1
    ensures forall t :: 0 <= t < |r| ==> r[t] == RelativeChange(c[t], c[t + 1])
  {
    if |c| == 0 then []
    else seq(|c| - 1, t requires 0 <= t < |c| - 1 => RelativeChange(c[t], c[t + 1]))
  }

  lemma RatioMinusOne(x: real, y: real)
    requires y != 0.0
    ensures x / y - 1.0 == RelativeChange(y, x)
  {
    var q := x / y;
    DivMul(x, y);
    MulDistrib(q, -1.0, y);
    DivUnique(q - 1.0, x - y, y);
  }

  /** One return, close x after close y, in floating point. */
  lemma ReturnEntry(x: real, y: real)
    ensures y != 0.0 ==> Ieee.Sub(Ieee.Div(Ieee.Finite(x), Ieee.Finite(y)), Ieee.Finite(1.0)) == Ieee.Finite(RelativeChange(y, x))
    ensures y == 0.0 ==> (Ieee.Sub(Ieee.Div(Ieee.Finite(x), Ieee.Finite(y)), Ieee.Finite(1.0)).NaN? <==> x == 0.0)
    ensures y == 0.0 && x != 0.0 ==>
      Ieee.Sub(Ieee.Div(Ieee.Finite(x), Ieee.Finite(y)), Ieee.Finite(1.0)) == if x > 0.0 then Ieee.PosInf else Ieee.NegInf
  {
    if y != 0.0 {
      RatioMinusOne(x, y);
    }
  }

  /**
    The first return is undefined; after a non-zero close each return is the
    relative change (c[t] - c[t-1]) / c[t-1]; after a zero close it is an
    infinity, or NaN when the price stays at zero.
   */
  lemma PctChangeShape(c: seq<real>)
    ensures |c| > 0 ==> PctChange(c)[0].NaN?
    ensures forall t :: 1 <= t < |c| && c[t - 1] != 0.0 ==>
      PctChange(c)[t] == Ieee.Finite(RelativeChange(c[t - 1], c[t]))
    ensures forall t :: 1 <= t < |c| && c[t - 1] == 0.0 ==>
      (PctChange(c)[t].NaN? <==> c[t] == 0.0)
    ensures forall t :: 1 <= t < |c| && c[t - 1] == 0.0 && c[t] != 0.0 ==>
      PctChange(c)[t] == if c[t] > 0.0 then Ieee.PosInf else Ieee.NegInf
  {
    forall t | 1 <= t < |c|
      ensures c[t - 1] != 0.0 ==> PctChange(c)[t] == Ieee.Finite(RelativeChange(c[t - 1], c[t]))
      ensures c[t - 1] == 0.0 ==> (PctChange(c)[t].NaN? <==> c[t] == 0.0)
      ensures c[t - 1] == 0.0 && c[t] != 0.0 ==> PctChange(c)[t] == if c[t] > 0.0 then Ieee.PosInf else Ieee.NegInf
    {
      ReturnEntry(c[t], c[t - 1]);
    }
  }

  /** The entries of `xs` that are not NaN, in order. */
  function NonNaN(xs: seq<Ieee.Float>): (r: seq<Ieee.Float>)
    ensures |r| <= |xs|
    ensures forall i :: 0 <= i < |r| ==> !r[i].NaN?
  {
    if |xs| == 0 then []
    else (if xs[0].NaN? then [] else [xs[0]]) + NonNaN(xs[1..])
  }

  /** Floating-point total, left to right. */
  function FloatSum(xs: seq<Ieee.Float>): Ieee.Float
    decreases |xs|
  {
    if |xs| == 0 then Ieee.Finite(0.0) else Ieee.Add(FloatSum(xs[..|xs| - 1]), xs[|xs| - 1])
  }

  lemma {:induction false} NonNaNOfNaNs(xs: seq<Ieee.Float>)
    ensures (forall i :: 0 <= i < |xs| ==> xs[i].NaN?) ==> NonNaN(xs) == []
    decreases |xs|
  {
    if |xs| > 0 {
      NonNaNOfNaNs(xs[1..]);
      if forall i :: 0 <= i < |xs| ==> xs[i].NaN? {
        assert forall i :: 0 <= i < |xs[1..]| ==> xs[1..][i] == xs[i + 1];
      }
    }
  }

  /** A series' `mean()`: NaN entries are skipped, and with nothing left the mean is NaN. */
  function NanMean(xs: seq<Ieee.Float>): Ieee.Float {
    var d := NonNaN(xs);
    if |d| == 0 then Ieee.NaN else Ieee.Div(FloatSum(d), Ieee.Finite(|d| as real))
  }

  /** A single bar has no return, so its mean daily return is NaN. */
  lemma SingleBarMeanReturn(c: seq<real>)
    ensures |c| == 1 ==> NanMean(PctChange(c)).NaN?
  {
    if |c| == 1 {
      assert PctChange(c) == [Ieee.NaN];
      NonNaNOfNaNs([Ieee.NaN]);
    }
  }

  function Finites(ys: seq<real>): (r: seq<Ieee.Float>)
    ensures |r| == |ys|
    ensures forall i :: 0 <= i < |ys| ==> r[i] == Ieee.Finite(ys[i])
  {
    seq(|ys|, i requires 0 <= i < |ys| => Ieee.Finite(ys[i]))
  }

  lemma {:induction false} NonNaNFinites(ys: seq<real>)
    ensures NonNaN(Finites(ys)) == Finites(ys)
    decreases |ys|
  {
    if |ys| > 0 {
      NonNaNFinites(ys[1..]);
      assert Finites(ys)[1..] == Finites(ys[1..]);
      assert Finites(ys) == [Finites(ys)[0]] + Finites(ys)[1..];
    }
  }

  lemma {:induction false} FloatSumFinites(ys: seq<real>)
    ensures FloatSum(Finites(ys)) == Ieee.Finite(Sum(ys))
    decreases |ys|
  {
    if |ys| > 0 {
      FloatSumFinites(ys[..|ys| - 1]);
      assert Finites(ys)[..|ys| - 1] == Finites(ys[..|ys| - 1]);
    }
  }

  /** On NaN-free finite values the pandas mean is the exact mean. */
  lemma NanMeanOfFinites(ys: seq<real>)
    requires |ys| > 0
    ensures NanMean([Ieee.NaN] + Finites(ys)) == Ieee.Finite(Mean(ys))
  {
    var xs := [Ieee.NaN] + Finites(ys);
    assert xs[1..] == Finites(ys);
    assert NonNaN(xs) == NonNaN(Finites(ys));
    NonNaNFinites(ys);
    FloatSumFinites(ys);
    Ieee.DivFinite(Sum(ys), |ys| as real);
  }

  /** The trend statistics; the volatilities need a square root and are not modelled. */
  datatype TrendSummary = TrendSummary(meanDailyReturn: Ieee.Float, startPrice: real, endPrice: real, totalReturnPercent: Ieee.Float)

  /** (last - first) / first * 100 in floating point. */
  function TotalReturnPercent(first: real, last: real): Ieee.Float {
    Ieee.Mul(Ieee.Div(Ieee.Sub(Ieee.Finite(last), Ieee.Finite(first)), Ieee.Finite(first)), Ieee.Finite(100.0))
  }

  /** The relative change in percent. */
  function PercentChange(first: real, last: real): real
    requires first != 0.0
  {
    RelativeChange(first, last) * 100.0
  }

  lemma TotalReturnExact(first: real, last: real)
    ensures first != 0.0 ==> TotalReturnPercent(first, last) == Ieee.Finite(PercentChange(first, last))
  {
    assert Ieee.Sub(Ieee.Finite(last), Ieee.Finite(first)) == Ieee.Finite(last - first);
  }

  /**
    `advanced_price_analysis`: None without data, without a `Close` column or
    for an empty one (the IndexError of `iloc[0]` is caught); otherwise the
    first and last close, the mean daily return (NaN for a single bar, which
    has no return) and the total return in percent.
   */
  function AdvancedPriceAnalysis(data: Option<Frame>): (r: Option<TrendSummary>)
    ensures r.None? <==> data.None? || data.value.close.None? || |data.value.close.value| == 0
    ensures r.Some? ==> r.value.startPrice == data.value.close.value[0]
    ensures r.Some? ==> r.value.endPrice == Last(data.value.close.value)
    ensures r.Some? && |data.value.close.value| == 1 ==> r.value.meanDailyReturn.NaN?
    ensures r.Some? && r.value.startPrice != 0.0 ==>
      r.value.totalReturnPercent == Ieee.Finite(PercentChange(r.value.startPrice, r.value.endPrice))
  {
    if data.None? || data.value.close.None? || |data.value.close.value| == 0 then None
    else
      var c := data.value.close.value;
      TotalReturnExact(c[0], Last(c));
      SingleBarMeanReturn(c);
      Some(TrendSummary(NanMean(PctChange(c)), c[0], Last(c), TotalReturnPercent(c[0], Last(c))))
  }

  /** `iloc[-1]` of a non-empty column. */
  function Last(c: seq<real>): real
    requires |c| > 0
  {
    c[|c| - 1]
  }

  /**
    For a positive first close the total return has the sign of the move:
    positive for a gain, zero exactly when the last close equals the first.
   */
  lemma PercentChangeSign(first: real, last: real)
    requires first > 0.0
    ensures PercentChange(first, last) > 0.0 <==> last > first
    ensures PercentChange(first, last) == 0.0 <==> last == first
  {
    var d := last - first;
    if d > 0.0 {
      DivPositive(d, first);
    } else if d < 0.0 {
      DivPositive(-d, first);
      assert -d / first == -(d / first);
    }
  }

  /** With positive prices the mean daily return is the exact mean of the relative changes. */
  lemma MeanReturnOfPositivePrices(f: Frame)
    requires f.close.Some? && |f.close.value| >= 2
    requires forall i :: 0 <= i < |f.close.value| ==> f.close.value[i] > 0.0
    ensures AdvancedPriceAnalysis(Some(f)).value.meanDailyReturn == Ieee.Finite(Mean(Returns(f.close.value)))
  {
    var c := f.close.value;
    PctChangeOfNonZero(c);
    NanMeanOfFinites(Returns(c));
  }

  /** Without a zero close every return after the first is finite. */
  lemma PctChangeOfNonZero(c: seq<real>)
    requires |c| >= 1
    requires forall i :: 0 <= i < |c| ==> c[i] != 0.0
    ensures PctChange(c) == [Ieee.NaN] + Finites(Returns(c))
  {
    PctChangeShape(c);
    var rets := Returns(c);
    forall t | 1 <= t < |c|
      ensures PctChange(c)[t] == ([Ieee.NaN] + Finites(rets))[t]
    {
      assert ([Ieee.NaN] + Finites(rets))[t] == Finites(rets)[t - 1];
    }
  }

  /**
    With a positive first close the total return is finite, positive exactly
    for a gain, zero exactly when the last close equals the first, and negative
    for a loss.
   */
  lemma TotalReturnSign(f: Frame)
    requires f.close.Some? && |f.close.value| >= 1 && f.close.value[0] > 0.0
    ensures var c := f.close.value;
      var t := AdvancedPriceAnalysis(Some(f)).value.totalReturnPercent;
      && t.Finite?
      && (t.v > 0.0 <==> Last(c) > c[0])
      && (t.v == 0.0 <==> Last(c) == c[0])
      && (t.v < 0.0 <==> Last(c) < c[0])
  {
    PercentChangeSign(f.close.value[0], Last(f.close.value));
  }

  /** Growth factor of a sequence of returns: the product of (1 + r). */
  function Compound(rets: seq<real>): real
    decreases |rets|
  {
    if |rets| == 0 then 1.0 else Times(Compound(rets[..|rets| - 1]), 1.0 + rets[|rets| - 1])
  }

  lemma OnePlusRelative(b: real, x: real)
    requires b != 0.0
    ensures 1.0 + RelativeChange(b, x) == x / b
  {
    DivMul(x - b, b);
    MulDistrib(1.0, (x - b) / b, b);
    DivUnique(1.0 + (x - b) / b, x, b);
  }

  lemma RatioChain(a: real, b: real, x: real)
    requires a != 0.0 && b != 0.0
    ensures Times(b / a, x / b) == x / a
  {
    var p := b / a;
    var q := x / b;
    DivMul(b, a);
    DivMul(x, b);
    MulAssoc(q, p, a);
    assert (p * q) * a == x;
    DivUnique(p * q, x, a);
  }

  /**
    Compounding the daily returns gives back the overall price ratio: the
    product of (1 + r) over all returns is last / first.
   */
  lemma {:induction false} CompoundedReturns(c: seq<real>)
    requires |c| >= 1
    requires forall i :: 0 <= i < |c| ==> c[i] != 0.0
    ensures Compound(Returns(c)) == Last(c) / c[0]
    decreases |c|
  {
    var n := |c|;
    if n == 1 {
      DivUnique(1.0, c[0], c[0]);
    } else {
      var init := c[..n - 1];
      var rets := Returns(c);
      assert Compound(rets[..n - 2]) == c[n - 2] / c[0] by {
        CompoundedReturns(init);
        assert rets[..n - 2] == Returns(init);
      }
      CompoundStep(rets, c[0], c[n - 2], c[n - 1]);
    }
  }

  /** One more return multiplies the growth factor b / a by x / b. */
  lemma CompoundStep(rets: seq<real>, a: real, b: real, x: real)
    requires |rets| >= 1 && a != 0.0 && b != 0.0
    requires Compound(rets[..|rets| - 1]) == b / a
    requires rets[|rets| - 1] == RelativeChange(b, x)
    ensures Compound(rets) == x / a
  {
    OnePlusRelative(b, x);
    RatioChain(a, b, x);
  }

  /**
    The total return reported for positive prices is the compounded daily
    growth minus one, in percent.
   */
  lemma TotalReturnCompounds(f: Frame)
    requires f.close.Some? && |f.close.value| >= 1
    requires forall i :: 0 <= i < |f.close.value| ==> f.close.value[i] > 0.0
    ensures AdvancedPriceAnalysis(Some(f)).value.totalReturnPercent
         == Ieee.Finite((Compound(Returns(f.close.value)) - 1.0) * 100.0)
  {
    var c := f.close.value;
    CompoundedReturns(c);
    RatioMinusOne(Last(c), c[0]);
  }
}
