/**
  The three indicator series of data_download.py: the trailing moving average,
  the RSI and the MACD line with its signal line and histogram. Each is a
  derived series aligned entry for entry with the close prices.
 */
module Indicators {
  import opened Wrappers
  import opened Aggregates
  import opened Series
  import Ieee

  // ---------------------------------------------------------------- moving average

  /** `Close.rolling(window=window).mean()`. */
  function MovingAverage(close: seq<real>, window: nat): (r: seq<Option<real>>)
    requires window >= 1
    ensures |r| == |close|
  {
    RollingMean(Lift(close), window)
  }

  /**
    The first window - 1 entries are undefined, and every later entry is the
    mean of the `window` closes ending at it.
   */
  lemma MovingAverageWindows(close: seq<real>, window: nat)
    requires window >= 1
    ensures forall i :: 0 <= i < |close| && i + 1 < window ==> MovingAverage(close, window)[i] == None
    ensures forall i :: window - 1 <= i < |close| ==>
      MovingAverage(close, window)[i] == Some(Mean(close[i + 1 - window..i + 1]))
  {
    forall i | window - 1 <= i < |close|
      ensures MovingAverage(close, window)[i] == Some(Mean(close[i + 1 - window..i + 1]))
    {
      var part := close[i + 1 - window..i + 1];
      assert Lift(close)[i + 1 - window..i + 1] == Lift(part);
      DefinedLift(part);
    }
  }

  // ---------------------------------------------------------------- RSI

  /** The default `periods` of calculate_rsi. */
  const RsiPeriods: nat := 14

  /**
    Relative strength and RSI as data_download.py writes them, evaluated in floating
    point: rs = avg_gain / avg_loss, then 100 - 100 / (1 + rs).
   */
  function RsiFormula(avgGain: Ieee.Float, avgLoss: Ieee.Float): Ieee.Float {
    var rs := Ieee.Div(avgGain, avgLoss);
    Ieee.Sub(Ieee.Finite(100.0), Ieee.Div(Ieee.Finite(100.0), Ieee.Add(Ieee.Finite(1.0), rs)))
  }

  /** One RSI entry from the two rolling averages; NaN in, NaN out. */
  function RsiEntry(avgGain: Option<real>, avgLoss: Option<real>): Option<real> {
    Ieee.ToOption(RsiFormula(Ieee.FromOption(avgGain), Ieee.FromOption(avgLoss)))
  }

  /** `calculate_rsi` on the close column. */
  function Rsi(close: seq<real>, periods: nat): (r: seq<Option<real>>)
    requires periods >= 1
    ensures |r| == |close|
  {
    var delta := Diff(close);
    var avgGain := RollingMean(Clip(delta, Gain), periods);
    var avgLoss := RollingMean(Clip(delta, Loss), periods);
    seq(|close|, i requires 0 <= i < |close| => RsiEntry(avgGain[i], avgLoss[i]))
  }

  /** The move on `side` between each pair of consecutive closes of `w`. */
  function Moves(w: seq<real>, side: Side): (r: seq<real>)
    ensures |r| == if |w| == 0 then 0 else |w| - 1
    ensures forall k :: 0 <= k < |r| ==> r[k] == Part(side, w[k + 1] - w[k]) && r[k] >= 0.0
  {
    if |w| == 0 then [] else seq(|w| - 1, k requires 0 <= k < |w| - 1 => Part(side, w[k + 1] - w[k]))
  }

  /** The total move on one side over consecutive closes of `w`. */
  function SideSum(w: seq<real>, side: Side): (r: real)
    ensures r >= 0.0
  {
    var m := Moves(w, side);
    SumNonNegative(m);
    Sum(m)
  }

  /**
    An independent closed form of the RSI over a window of closes: the share
    of the upward movement in the total movement, in percent; undefined when
    nothing moved.
   */
  function RsiReference(w: seq<real>): Option<real> {
    var g := SideSum(w, Gain);
    var l := SideSum(w, Loss);
    if g + l == 0.0 then None else Some(100.0 * g / (g + l))
  }

  lemma RsiAlgebra(g: real, l: real)
    requires g >= 0.0 && l > 0.0
    ensures 1.0 + g / l > 0.0
    ensures 100.0 - 100.0 / (1.0 + g / l) == 100.0 * g / (g + l)
  {
    var s := g + l;
    var q := g / l;
    DivMul(g, l);
    DivNonNegative(g, l);
    var u := 1.0 + q;
    MulDistrib(1.0, q, l);
    assert u * l == s;
    var v := 100.0 / u;
    DivMul(100.0, u);
    MulAssoc(v, u, l);
    assert v * s == 100.0 * l;
    DivUnique(v, 100.0 * l, s);
    var a := 100.0 * g / s;
    var b := 100.0 * l / s;
    DivMul(100.0 * g, s);
    DivMul(100.0 * l, s);
    MulDistrib(a, b, s);
    DivUnique(a + b, 100.0 * s, s);
    DivUnique(100.0, 100.0 * s, s);
  }

  /**
    The floating-point formula on non-negative averages: 0/0 gives NaN, x/0
    with x > 0 gives an infinite RS and exactly 100, and otherwise the value is
    100 g / (g + l). No infinity survives to the result.
   */
  lemma RsiFormulaExact(g: real, l: real)
    requires g >= 0.0 && l >= 0.0
    ensures RsiFormula(Ieee.Finite(g), Ieee.Finite(l))
         == if g + l == 0.0 then Ieee.NaN else Ieee.Finite(100.0 * g / (g + l))
  {
    if l > 0.0 {
      RsiFormulaWithLoss(g, l);
    } else if g > 0.0 {
      RsiFormulaNoLoss(g, l);
    } else {
      RsiFormulaNoMove(g, l);
    }
  }

  /** Some loss: every step is a finite division. */
  lemma RsiFormulaWithLoss(g: real, l: real)
    requires g >= 0.0 && l > 0.0
    ensures RsiFormula(Ieee.Finite(g), Ieee.Finite(l)) == Ieee.Finite(100.0 * g / (g + l))
  {
    var q := g / l;
    RsiAlgebra(g, l);
    assert Ieee.Div(Ieee.Finite(g), Ieee.Finite(l)) == Ieee.Finite(q);
    assert Ieee.Add(Ieee.Finite(1.0), Ieee.Finite(q)) == Ieee.Finite(1.0 + q);
    var d := 100.0 / (1.0 + q);
    assert Ieee.Div(Ieee.Finite(100.0), Ieee.Finite(1.0 + q)) == Ieee.Finite(d);
    assert Ieee.Sub(Ieee.Finite(100.0), Ieee.Finite(d)) == Ieee.Finite(100.0 - d);
  }

  /** Gain without loss: RS is +infinity, 100 / infinity is 0, and RSI is 100. */
  lemma RsiFormulaNoLoss(g: real, l: real)
    requires g > 0.0 && l == 0.0
    ensures RsiFormula(Ieee.Finite(g), Ieee.Finite(l)) == Ieee.Finite(100.0 * g / (g + l))
  {
    assert RsiFormula(Ieee.Finite(g), Ieee.Finite(l)) == Ieee.Finite(100.0) by {
      Ieee.DivByZero(g);
      RsiOfInfiniteStrength();
    }
    WholeShare(g, l);
  }

  /** With no loss the gains are the whole movement: 100 g / (g + 0) is 100. */
  lemma WholeShare(g: real, l: real)
    requires g > 0.0 && l == 0.0
    ensures 100.0 * g / (g + l) == 100.0
  {
    assert g + l == g;
    MulDivCancel(100.0, g);
  }

  /** An infinite RS: 100 / (1 + inf) is 0 and RSI is exactly 100. */
  lemma NoShare(g: real, l: real)
    requires g == 0.0 && l > 0.0
    ensures 100.0 * g / (g + l) == 0.0
  {
  }

  lemma RsiOfInfiniteStrength()
    ensures Ieee.Sub(Ieee.Finite(100.0), Ieee.Div(Ieee.Finite(100.0), Ieee.Add(Ieee.Finite(1.0), Ieee.PosInf)))
         == Ieee.Finite(100.0)
  {
  }

  /** No movement: RS is 0/0, and the NaN carries through to RSI. */
  lemma RsiFormulaNoMove(g: real, l: real)
    requires g == 0.0 && l == 0.0
    ensures RsiFormula(Ieee.Finite(g), Ieee.Finite(l)) == Ieee.NaN
  {
    Ieee.DivByZero(g);
  }

  /**
    The divide-by-zero cases of one RSI entry: no loss and some gain is exactly
    100, no movement at all is undefined, and any defined entry lies in [0, 100].
   */
  lemma RsiEntryCases(g: real, l: real)
    requires g >= 0.0 && l >= 0.0
    ensures l == 0.0 && g > 0.0 ==> RsiEntry(Some(g), Some(l)) == Some(100.0)
    ensures l == 0.0 && g == 0.0 ==> RsiEntry(Some(g), Some(l)) == None
    ensures RsiEntry(Some(g), Some(l)).Some? ==> 0.0 <= RsiEntry(Some(g), Some(l)).value <= 100.0
  {
    RsiFormulaExact(g, l);
    if g + l > 0.0 {
      PercentShare(g, g + l);
    }
    if l == 0.0 && g > 0.0 {
      MulDivCancel(100.0, g);
    }
  }

  /** 100 * g / s is a percentage when 0 <= g <= s. */
  lemma PercentShare(g: real, s: real)
    requires 0.0 <= g <= s && s > 0.0
    ensures 0.0 <= 100.0 * g / s <= 100.0
  {
    DivNonNegative(100.0 * g, s);
    DivMonotone(100.0 * g, 100.0 * s, s);
    MulDivCancel(100.0, s);
  }

  /** `c` holds the clipped differences of `close` on `side` (entry 0 aside). */
  predicate ClippedOf(c: seq<Option<real>>, close: seq<real>, side: Side) {
    && |c| == |close|
    && forall k :: 1 <= k < |c| ==> c[k] == Some(Part(side, close[k] - close[k - 1]))
  }

  lemma ClipDiffIsClipped(close: seq<real>, side: Side)
    ensures ClippedOf(Clip(Diff(close), side), close, side)
  {
  }

  /**
    The clipped differences over the `periods` bars ending at bar i are all
    defined and are exactly the one-sided moves between closes i-periods..i.
   */
  lemma ClippedWindow(c: seq<Option<real>>, close: seq<real>, side: Side, i: nat, periods: nat)
    requires ClippedOf(c, close, side)
    requires periods >= 1 && periods <= i < |close|
    ensures c[i + 1 - periods..i + 1] == Lift(Moves(close[i - periods..i + 1], side))
  {
    var s := c[i + 1 - periods..i + 1];
    var l := Lift(Moves(close[i - periods..i + 1], side));
    forall k | 0 <= k < periods
      ensures s[k] == l[k]
    {
      ClippedWindowEntry(c, close, side, i, periods, k);
    }
  }

  /** Entry k of that window: the move from close i-periods+k to the next close. */
  lemma ClippedWindowEntry(c: seq<Option<real>>, close: seq<real>, side: Side, i: nat, periods: nat, k: nat)
    requires ClippedOf(c, close, side)
    requires periods >= 1 && periods <= i < |close| && k < periods
    ensures c[i + 1 - periods..i + 1][k] == Lift(Moves(close[i - periods..i + 1], side))[k]
  {
    var w := close[i - periods..i + 1];
    var j := i + 1 - periods + k;
    assert w[k] == close[j - 1] && w[k + 1] == close[j];
  }

  /** A full window of defined entries averages to their total over the window size. */
  lemma WindowMeanOf(xs: seq<Option<real>>, i: nat, window: nat, total: real)
    requires window >= 1 && window - 1 <= i < |xs|
    requires AllDefined(xs[i + 1 - window..i + 1]) && Sum(Defined(xs[i + 1 - window..i + 1])) == total
    ensures WindowMean(xs, i, window) == Some(total / window as real)
  {
  }

  /** A window that reaches back to the first bar includes its NaN difference. */
  lemma ClippedWarmUp(close: seq<real>, side: Side, i: nat, periods: nat)
    requires periods >= 1 && i < |close| && i < periods
    ensures WindowMean(Clip(Diff(close), side), i, periods) == None
  {
    if i + 1 >= periods {
      var win := Clip(Diff(close), side)[i + 1 - periods..i + 1];
      assert win[0] == None;
    }
  }

  /** The rolling average of one side at bar i >= periods, in closed form. */
  lemma ClippedAverage(close: seq<real>, side: Side, i: nat, periods: nat)
    requires periods >= 1 && periods <= i < |close|
    ensures WindowMean(Clip(Diff(close), side), i, periods)
         == Some(SideSum(close[i - periods..i + 1], side) / periods as real)
  {
    var c := Clip(Diff(close), side);
    ClipDiffIsClipped(close, side);
    ClippedWindow(c, close, side, i, periods);
    LiftedWindowMean(c, i, periods, Moves(close[i - periods..i + 1], side));
  }

  /** A window holding the defined values `m` averages to their sum over the window size. */
  lemma LiftedWindowMean(xs: seq<Option<real>>, i: nat, window: nat, m: seq<real>)
    requires window >= 1 && window - 1 <= i < |xs|
    requires xs[i + 1 - window..i + 1] == Lift(m)
    ensures WindowMean(xs, i, window) == Some(Sum(m) / window as real)
  {
    DefinedLift(m);
    WindowMeanOf(xs, i, window, Sum(m));
  }

  /** Before bar `periods` the RSI is undefined. */
  lemma RsiWarmUp(close: seq<real>, periods: nat, i: nat)
    requires periods >= 1 && i < |close| && i < periods
    ensures Rsi(close, periods)[i] == None
  {
    ClippedWarmUp(close, Gain, i, periods);
  }

  /** One RSI entry from non-negative averages, in closed form. */
  lemma RsiEntryExact(g: real, l: real)
    requires g >= 0.0 && l >= 0.0
    ensures RsiEntry(Some(g), Some(l)) == if g + l == 0.0 then None else Some(100.0 * g / (g + l))
  {
    RsiFormulaExact(g, l);
  }

  /** RSI entry i from the rolling averages of the clipped differences. */
  lemma RsiUnfold(close: seq<real>, periods: nat, i: nat)
    requires periods >= 1 && i < |close|
    ensures Rsi(close, periods)[i]
         == RsiEntry(WindowMean(Clip(Diff(close), Gain), i, periods), WindowMean(Clip(Diff(close), Loss), i, periods))
  {
  }

  /** The RSI of two averages over `p` bars equals the closed form over their totals. */
  lemma RsiOfAverages(g: real, l: real, p: real)
    requires g >= 0.0 && l >= 0.0 && p > 0.0
    ensures RsiEntry(Some(g / p), Some(l / p)) == if g + l == 0.0 then None else Some(100.0 * g / (g + l))
  {
    DivNonNegative(g, p);
    DivNonNegative(l, p);
    RsiEntryExact(g / p, l / p);
    if g + l > 0.0 {
      RsiScale(g, l, p);
    } else {
      assert g / p + l / p == 0.0;
    }
  }

  /** From bar `periods` on, the RSI entry is the closed form over its window. */
  lemma RsiAt(close: seq<real>, periods: nat, i: nat)
    requires periods >= 1 && periods <= i < |close|
    ensures Rsi(close, periods)[i] == RsiReference(close[i - periods..i + 1])
  {
    var w := close[i - periods..i + 1];
    RsiUnfold(close, periods, i);
    ClippedAverage(close, Gain, i, periods);
    ClippedAverage(close, Loss, i, periods);
    RsiOfAverages(SideSum(w, Gain), SideSum(w, Loss), periods as real);
  }

  /**
    The first `periods` RSI entries are undefined (the first difference is
    NaN), and every later entry equals the closed form over the periods + 1
    closes ending at it.
   */
  lemma RsiMatchesReference(close: seq<real>, periods: nat)
    requires periods >= 1
    ensures forall i :: 0 <= i < |close| && i < periods ==> Rsi(close, periods)[i] == None
    ensures forall i :: periods <= i < |close| ==>
      Rsi(close, periods)[i] == RsiReference(close[i - periods..i + 1])
  {
    forall i | 0 <= i < |close| && i < periods
      ensures Rsi(close, periods)[i] == None
    {
      RsiWarmUp(close, periods, i);
    }
    forall i | periods <= i < |close|
      ensures Rsi(close, periods)[i] == RsiReference(close[i - periods..i + 1])
    {
      RsiAt(close, periods, i);
    }
  }

  lemma RsiScale(g: real, l: real, p: real)
    requires g >= 0.0 && l >= 0.0 && g + l > 0.0 && p > 0.0
    ensures g / p + l / p > 0.0
    ensures 100.0 * (g / p) / (g / p + l / p) == 100.0 * g / (g + l)
  {
    var s := g + l;
    var a := g / p;
    var b := l / p;
    DivMul(g, p);
    DivMul(l, p);
    DivNonNegative(g, p);
    DivNonNegative(l, p);
    MulDistrib(a, b, p);
    assert (a + b) * p == s;
    var t := 100.0 * a / (a + b);
    DivMul(100.0 * a, a + b);
    MulAssoc(t, a + b, p);
    MulAssoc(100.0, a, p);
    assert t * s == 100.0 * g;
    DivUnique(t, 100.0 * g, s);
  }

  /** Every defined RSI entry lies in [0, 100]. */
  lemma RsiBounded(close: seq<real>, periods: nat)
    requires periods >= 1
    ensures forall i :: 0 <= i < |close| && Rsi(close, periods)[i].Some? ==>
      0.0 <= Rsi(close, periods)[i].value <= 100.0
  {
    forall i | 0 <= i < |close| && Rsi(close, periods)[i].Some?
      ensures 0.0 <= Rsi(close, periods)[i].value <= 100.0
    {
      if i < periods {
        RsiWarmUp(close, periods, i);
      } else {
        RsiAt(close, periods, i);
        ReferenceBounded(close[i - periods..i + 1]);
      }
    }
  }

  /** The closed form is a percentage. */
  lemma ReferenceBounded(w: seq<real>)
    ensures RsiReference(w).Some? ==> 0.0 <= RsiReference(w).value <= 100.0
  {
    var g, l := SideSum(w, Gain), SideSum(w, Loss);
    if g + l != 0.0 {
      PercentShare(g, g + l);
    }
  }

  /** Entry i >= periods depends only on the closes i - periods .. i. */
  lemma RsiLocal(a: seq<real>, b: seq<real>, i: nat, j: nat, periods: nat)
    requires periods >= 1 && periods <= i < |a| && periods <= j < |b|
    requires a[i - periods..i + 1] == b[j - periods..j + 1]
    ensures Rsi(a, periods)[i] == Rsi(b, periods)[j]
  {
    RsiMatchesReference(a, periods);
    RsiMatchesReference(b, periods);
  }

  lemma SideSumFlat(w: seq<real>, side: Side)
    requires Constant(w)
    ensures SideSum(w, side) == 0.0
  {
    var m := Moves(w, side);
    forall k | 0 <= k < |m| ensures m[k] == 0.0 {
      assert w[k + 1] == w[k];
    }
    SumConstant(m, 0.0);
  }

  /** Over a window of unchanged closes the RSI is undefined (0 / 0). */
  lemma RsiFlatWindow(close: seq<real>, periods: nat, i: nat)
    requires periods >= 1 && periods <= i < |close|
    requires Constant(close[i - periods..i + 1])
    ensures Rsi(close, periods)[i] == None
  {
    RsiMatchesReference(close, periods);
    SideSumFlat(close[i - periods..i + 1], Gain);
    SideSumFlat(close[i - periods..i + 1], Loss);
  }

  /** When every step of `w` moves towards `side`, the total on that side is positive. */
  lemma OneWaySum(w: seq<real>, side: Side)
    requires |w| >= 2
    requires forall k :: 0 <= k < |w| - 1 ==> Moves(w, side)[k] > 0.0
    ensures SideSum(w, side) > 0.0
  {
    SumPositive(Moves(w, side));
  }

  /** ... and the total on the other side is 0. */
  lemma OtherWaySum(w: seq<real>, side: Side, other: Side)
    requires side != other
    requires forall k :: 0 <= k < |w| - 1 ==> Moves(w, side)[k] > 0.0
    ensures SideSum(w, other) == 0.0
  {
    var n := Moves(w, other);
    forall k | 0 <= k < |n|
      ensures n[k] == 0.0
    {
      OtherSideEntry(w, side, other, k);
    }
    SumConstant(n, 0.0);
  }

  lemma OtherSideEntry(w: seq<real>, side: Side, other: Side, k: nat)
    requires side != other && k + 1 < |w| && Moves(w, side)[k] > 0.0
    ensures Moves(w, other)[k] == 0.0
  {
    OtherSideZero(side, other, w[k + 1] - w[k]);
  }

  /** A move with a positive part on one side has no part on the other. */
  lemma OtherSideZero(side: Side, other: Side, d: real)
    requires side != other && Part(side, d) > 0.0
    ensures Part(other, d) == 0.0
  {
    PartSplit(d);
  }

  /** A rise is a gain and a fall is a loss. */
  lemma MoveSide(a: real, b: real, side: Side)
    requires if side == Gain then a < b else a > b
    ensures Part(side, b - a) > 0.0
  {
  }

  /**
    Closes strictly increasing (or decreasing) over the window ending at bar i:
    every later close of the window is above (below) every earlier one.
   */
  predicate Monotone(close: seq<real>, periods: nat, i: nat, side: Side)
    requires periods <= i < |close|
  {
    forall j, k :: i - periods <= j < k <= i ==>
      (side == Gain ==> close[j] < close[k]) && (side == Loss ==> close[j] > close[k])
  }

  /** Each step of a monotone window `w` moves towards its side. */
  lemma WindowMovesOneWay(close: seq<real>, periods: nat, i: nat, side: Side, w: seq<real>)
    requires periods >= 1 && periods <= i < |close|
    requires Monotone(close, periods, i, side)
    requires w == close[i - periods..i + 1]
    ensures forall k :: 0 <= k < |w| - 1 ==> Moves(w, side)[k] > 0.0
  {
    forall k | 0 <= k < |w| - 1
      ensures Moves(w, side)[k] > 0.0
    {
      WindowStep(close, periods, i, side, w, k);
    }
  }

  lemma WindowStep(close: seq<real>, periods: nat, i: nat, side: Side, w: seq<real>, k: nat)
    requires periods >= 1 && periods <= i < |close|
    requires Monotone(close, periods, i, side)
    requires w == close[i - periods..i + 1] && k < periods
    ensures Moves(w, side)[k] > 0.0
  {
    var j := i - periods + k;
    assert w[k] == close[j] && w[k + 1] == close[j + 1];
    MoveSide(close[j], close[j + 1], side);
  }

  /**
    Closes strictly increasing over the window give an RSI of exactly 100:
    the gain side is `clip(lower=0)` of the differences, so a rise is a gain.
   */
  lemma RsiRisingWindow(close: seq<real>, periods: nat, i: nat)
    requires periods >= 1 && periods <= i < |close|
    requires forall j, k :: i - periods <= j < k <= i ==> close[j] < close[k]
    ensures Rsi(close, periods)[i] == Some(100.0)
  {
    assert Monotone(close, periods, i, Gain);
    RsiAt(close, periods, i);
    RisingReference(close, periods, i);
  }

  /** Closes strictly decreasing over the window give an RSI of exactly 0. */
  lemma RsiFallingWindow(close: seq<real>, periods: nat, i: nat)
    requires periods >= 1 && periods <= i < |close|
    requires forall j, k :: i - periods <= j < k <= i ==> close[j] > close[k]
    ensures Rsi(close, periods)[i] == Some(0.0)
  {
    assert Monotone(close, periods, i, Loss);
    RsiAt(close, periods, i);
    FallingReference(close, periods, i);
  }

  /** The closed form over a strictly rising window is 100. */
  lemma RisingReference(close: seq<real>, periods: nat, i: nat)
    requires periods >= 1 && periods <= i < |close|
    requires Monotone(close, periods, i, Gain)
    ensures RsiReference(close[i - periods..i + 1]) == Some(100.0)
  {
    var w := close[i - periods..i + 1];
    WindowMovesOneWay(close, periods, i, Gain, w);
    OneWaySum(w, Gain);
    OtherWaySum(w, Gain, Loss);
    ReferenceAllGain(w);
  }

  /** The closed form over a strictly falling window is 0. */
  lemma FallingReference(close: seq<real>, periods: nat, i: nat)
    requires periods >= 1 && periods <= i < |close|
    requires Monotone(close, periods, i, Loss)
    ensures RsiReference(close[i - periods..i + 1]) == Some(0.0)
  {
    var w := close[i - periods..i + 1];
    WindowMovesOneWay(close, periods, i, Loss, w);
    OneWaySum(w, Loss);
    OtherWaySum(w, Loss, Gain);
    ReferenceAllLoss(w);
  }

  lemma ReferenceAllGain(w: seq<real>)
    requires SideSum(w, Gain) > 0.0 && SideSum(w, Loss) == 0.0
    ensures RsiReference(w) == Some(100.0)
  {
    WholeShare(SideSum(w, Gain), SideSum(w, Loss));
  }

  lemma ReferenceAllLoss(w: seq<real>)
    requires SideSum(w, Gain) == 0.0 && SideSum(w, Loss) > 0.0
    ensures RsiReference(w) == Some(0.0)
  {
    NoShare(SideSum(w, Gain), SideSum(w, Loss));
  }

  // ---------------------------------------------------------------- MACD

  /** The default periods of calculate_macd. */
  const MacdFast: nat := 12
  const MacdSlow: nat := 26
  const MacdSignal: nat := 9

  /** The three columns calculate_macd returns. */
  datatype Macd = Macd(line: seq<Option<real>>, signal: seq<Option<real>>, histogram: seq<Option<real>>)

  /** fast EMA minus slow EMA of the closes. */
  function MacdLine(close: seq<real>, fast: nat, slow: nat): (r: seq<real>)
    requires fast >= 1 && slow >= 1
    ensures |r| == |close|
  {
    var fastEma := Ema(close, fast);
    var slowEma := Ema(close, slow);
    seq(|close|, i requires 0 <= i < |close| => fastEma[i] - slowEma[i])
  }

  /** `calculate_macd` on the close column. */
  function ComputeMacd(close: seq<real>, fast: nat, slow: nat, signal: nat): Macd
    requires fast >= 1 && slow >= 1 && signal >= 1
  {
    var line := MacdLine(close, fast, slow);
    var signalLine := Ema(line, signal);
    var histogram := seq(|close|, i requires 0 <= i < |close| => line[i] - signalLine[i]);
    Macd(Lift(line), Lift(signalLine), Lift(histogram))
  }

  /**
    The three MACD columns are as long as the closes and defined everywhere
    (the EMAs seed at the first bar); the line is the fast EMA of the closes
    minus the slow one, the signal starts at the line's first value, and the
    histogram is the line minus the signal.
   */
  lemma MacdAligned(close: seq<real>, fast: nat, slow: nat, signal: nat)
    requires fast >= 1 && slow >= 1 && signal >= 1
    ensures |ComputeMacd(close, fast, slow, signal).line| == |close|
    ensures |ComputeMacd(close, fast, slow, signal).signal| == |close|
    ensures |ComputeMacd(close, fast, slow, signal).histogram| == |close|
    ensures AllDefined(ComputeMacd(close, fast, slow, signal).line)
    ensures AllDefined(ComputeMacd(close, fast, slow, signal).signal)
    ensures AllDefined(ComputeMacd(close, fast, slow, signal).histogram)
    ensures forall t :: 0 <= t < |close| ==>
      ComputeMacd(close, fast, slow, signal).line[t] == Some(Ema(close, fast)[t] - Ema(close, slow)[t])
    ensures |close| > 0 ==>
      ComputeMacd(close, fast, slow, signal).signal[0] == ComputeMacd(close, fast, slow, signal).line[0]
    ensures forall t :: 0 <= t < |close| ==>
      ComputeMacd(close, fast, slow, signal).histogram[t].value
        == ComputeMacd(close, fast, slow, signal).line[t].value - ComputeMacd(close, fast, slow, signal).signal[t].value
  {
    EmaRecurrence(MacdLine(close, fast, slow), signal);
  }

  /** The signal line is the EMA of the MACD line, seeded with its first value. */
  lemma MacdSignalRecurrence(close: seq<real>, fast: nat, slow: nat, signal: nat)
    requires fast >= 1 && slow >= 1 && signal >= 1
    ensures var m := ComputeMacd(close, fast, slow, signal);
      forall t :: 1 <= t < |close| ==>
        m.signal[t] == Some(Blend(Alpha(signal), m.line[t].value, m.signal[t - 1].value))
  {
    var line := MacdLine(close, fast, slow);
    EmaRecurrence(line, signal);
    SignalColumns(line, Ema(line, signal), ComputeMacd(close, fast, slow, signal), signal);
  }

  lemma SignalColumns(line: seq<real>, e: seq<real>, m: Macd, signal: nat)
    requires signal >= 1 && |e| == |line|
    requires m.line == Lift(line) && m.signal == Lift(e)
    requires forall t :: 1 <= t < |line| ==> e[t] == Blend(Alpha(signal), line[t], e[t - 1])
    ensures forall t :: 1 <= t < |line| ==> m.signal[t] == Some(Blend(Alpha(signal), m.line[t].value, m.signal[t - 1].value))
  {
    forall t | 1 <= t < |line|
      ensures m.signal[t] == Some(Blend(Alpha(signal), m.line[t].value, m.signal[t - 1].value))
    {
      assert m.signal[t] == Some(e[t]) && m.signal[t - 1] == Some(e[t - 1]);
      assert m.line[t] == Some(line[t]);
    }
  }

  /** At the first bar both EMAs equal the close, so all three columns are 0. */
  lemma MacdStartsAtZero(close: seq<real>, fast: nat, slow: nat, signal: nat)
    requires fast >= 1 && slow >= 1 && signal >= 1
    ensures var m := ComputeMacd(close, fast, slow, signal);
      |close| > 0 ==> m.line[0] == Some(0.0) && m.signal[0] == Some(0.0) && m.histogram[0] == Some(0.0)
  {
    EmaRecurrence(close, fast);
    EmaRecurrence(close, slow);
    EmaRecurrence(MacdLine(close, fast, slow), signal);
  }

  /** A flat price history has a MACD line, signal and histogram of 0 throughout. */
  lemma MacdOfFlatSeries(close: seq<real>, fast: nat, slow: nat, signal: nat, c: real)
    requires fast >= 1 && slow >= 1 && signal >= 1
    requires forall i :: 0 <= i < |close| ==> close[i] == c
    ensures var m := ComputeMacd(close, fast, slow, signal);
      forall t :: 0 <= t < |close| ==>
        m.line[t] == Some(0.0) && m.signal[t] == Some(0.0) && m.histogram[t] == Some(0.0)
  {
    EmaOfConstant(close, fast, c);
    EmaOfConstant(close, slow, c);
    var line := MacdLine(close, fast, slow);
    EmaOfConstant(line, signal, 0.0);
  }
}
