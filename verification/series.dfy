/**
  The pandas Series primitives the indicators are built from, over exact reals:
  a derived series holds `None` wherever pandas holds NaN.
 */
module Series {
  import opened Wrappers
  import opened Aggregates

  /** A fully defined column seen as a derived series. */
  function Lift(xs: seq<real>): (r: seq<Option<real>>)
    ensures |r| == |xs|
    ensures forall i :: 0 <= i < |xs| ==> r[i] == Some(xs[i])
  {
    seq(|xs|, i requires 0 <= i < |xs| => Some(xs[i]))
  }

  /** The defined entries in order: what pandas' NaN-skipping reductions see. */
  function Defined(s: seq<Option<real>>): (r: seq<real>)
    ensures |r| <= |s|
    decreases |s|
  {
    if |s| == 0 then []
    else Defined(s[..|s| - 1]) + (if s[|s| - 1].Some? then [s[|s| - 1].value] else [])
  }

  predicate AllDefined(s: seq<Option<real>>) {
    forall i :: 0 <= i < |s| ==> s[i].Some?
  }

  lemma {:induction false} DefinedConcat(a: seq<Option<real>>, b: seq<Option<real>>)
    ensures Defined(a + b) == Defined(a) + Defined(b)
    decreases |b|
  {
    if |b| == 0 {
      assert a + b == a;
    } else {
      assert (a + b)[..|a + b| - 1] == a + b[..|b| - 1];
      DefinedConcat(a, b[..|b| - 1]);
    }
  }

  /** No entry is dropped exactly when every entry is defined. */
  lemma {:induction false} DefinedAll(s: seq<Option<real>>)
    ensures |Defined(s)| == |s| <==> AllDefined(s)
    decreases |s|
  {
    if |s| > 0 {
      var init := s[..|s| - 1];
      DefinedAll(init);
      if AllDefined(s) {
        assert AllDefined(init) by {
          forall i | 0 <= i < |init| ensures init[i].Some? {
            assert init[i] == s[i];
          }
        }
      }
      if |Defined(s)| == |s| {
        assert s[|s| - 1].Some?;
        assert |Defined(init)| == |init|;
        forall i | 0 <= i < |s| ensures s[i].Some? {
          if i < |init| {
            assert init[i] == s[i];
          }
        }
      }
    }
  }

  lemma {:induction false} DefinedLift(xs: seq<real>)
    ensures Defined(Lift(xs)) == xs
    decreases |xs|
  {
    if |xs| > 0 {
      var init := xs[..|xs| - 1];
      assert Lift(xs)[..|xs| - 1] == Lift(init);
      DefinedLift(init);
    }
  }

  /**
    Entry `i` of `rolling(window).mean()` with the default min_periods (the
    window size): the mean of the `window` entries ending at `i`, defined only
    when the window fits and none of its entries is NaN.
   */
  function WindowMean(xs: seq<Option<real>>, i: nat, window: nat): Option<real>
    requires window >= 1 && i < |xs|
  {
    if i + 1 < window then None
    else
      var win := xs[i + 1 - window .. i + 1];
      if AllDefined(win) then Some(Sum(Defined(win)) / window as real) else None
  }

  /** `rolling(window).mean()`, entry by entry. */
  function RollingMean(xs: seq<Option<real>>, window: nat): (r: seq<Option<real>>)
    requires window >= 1
    ensures |r| == |xs|
  {
    seq(|xs|, i requires 0 <= i < |xs| => WindowMean(xs, i, window))
  }

  /** First index of the window that ends just before `i`. */
  function WindowStart(i: nat, window: nat): nat {
    if i >= window then i - window else 0
  }

  /** What one entry adds to a NaN-skipping running sum and count. */
  function Contribution(o: Option<real>): real {
    if o.Some? then o.value else 0.0
  }

  function Observed(o: Option<real>): nat {
    if o.Some? then 1 else 0
  }

  lemma DefinedSingle(o: Option<real>)
    ensures Defined([o]) == (if o.Some? then [o.value] else [])
  {
    assert [o][..0] == [];
  }

  /** Extending a slice by one entry at its end. */
  lemma WindowGrow(xs: seq<Option<real>>, lo: nat, i: nat)
    requires lo <= i < |xs|
    ensures Sum(Defined(xs[lo..i + 1])) == Sum(Defined(xs[lo..i])) + Contribution(xs[i])
    ensures |Defined(xs[lo..i + 1])| == |Defined(xs[lo..i])| + Observed(xs[i])
  {
    assert xs[lo..i + 1] == xs[lo..i] + [xs[i]];
    DefinedConcat(xs[lo..i], [xs[i]]);
    DefinedSingle(xs[i]);
    SumConcat(Defined(xs[lo..i]), Defined([xs[i]]));
    assert Sum(Defined([xs[i]])) == Contribution(xs[i]) by {
      if xs[i].Some? {
        assert [xs[i].value][..0] == [];
      }
    }
  }

  /** Dropping the first entry of a slice. */
  lemma WindowShrink(xs: seq<Option<real>>, lo: nat, j: nat)
    requires lo < j <= |xs|
    ensures Sum(Defined(xs[lo + 1..j])) == Sum(Defined(xs[lo..j])) - Contribution(xs[lo])
    ensures |Defined(xs[lo + 1..j])| == |Defined(xs[lo..j])| - Observed(xs[lo])
  {
    assert xs[lo..j] == [xs[lo]] + xs[lo + 1..j];
    DefinedConcat([xs[lo]], xs[lo + 1..j]);
    DefinedSingle(xs[lo]);
    SumConcat(Defined([xs[lo]]), Defined(xs[lo + 1..j]));
    assert Sum(Defined([xs[lo]])) == Contribution(xs[lo]) by {
      if xs[lo].Some? {
        assert [xs[lo].value][..0] == [];
      }
    }
  }

  /** pandas' output for a window with running sum `sum` over `nobs` observations. */
  function Emit(sum: real, nobs: int, window: nat): Option<real>
    requires window >= 1
  {
    if nobs >= window then Some(sum / nobs as real) else None
  }

  /** The running sum and count of the current window give pandas' output for entry `i`. */
  lemma WindowOutput(xs: seq<Option<real>>, i: nat, window: nat, sum: real, nobs: int)
    requires window >= 1 && i < |xs|
    requires sum == Sum(Defined(xs[WindowStart(i + 1, window)..i + 1]))
    requires nobs == |Defined(xs[WindowStart(i + 1, window)..i + 1])|
    ensures Emit(sum, nobs, window) == WindowMean(xs, i, window)
  {
    var win := xs[WindowStart(i + 1, window)..i + 1];
    DefinedAll(win);
    if i + 1 >= window {
      assert win == xs[i + 1 - window..i + 1];
    }
  }

  /** `sum` and `nobs` are the running sum and count of the window ending before `i`. */
  predicate Tracks(xs: seq<Option<real>>, i: nat, window: nat, sum: real, nobs: int)
    requires i <= |xs|
  {
    && sum == Sum(Defined(xs[WindowStart(i, window)..i]))
    && nobs == |Defined(xs[WindowStart(i, window)..i])|
  }

  /**
    One step of the slide: the entering entry is added and the leaving one
    removed, and the updated sum and count give entry `i`.
   */
  lemma SlideStep(xs: seq<Option<real>>, i: nat, window: nat, sum: real, nobs: int, sum': real, nobs': int)
    requires window >= 1 && i < |xs|
    requires Tracks(xs, i, window, sum, nobs)
    requires sum' == sum + Contribution(xs[i]) - Contribution(Leaving(xs, i, window))
    requires nobs' == nobs + Observed(xs[i]) - Observed(Leaving(xs, i, window))
    ensures Tracks(xs, i + 1, window, sum', nobs')
    ensures Emit(sum', nobs', window) == WindowMean(xs, i, window)
  {
    var lo := WindowStart(i, window);
    WindowGrow(xs, lo, i);
    if i >= window {
      WindowShrink(xs, lo, i + 1);
    }
    WindowOutput(xs, i, window, sum', nobs');
  }

  /** The entry that drops out of the window when entry `i` enters it. */
  function Leaving(xs: seq<Option<real>>, i: nat, window: nat): Option<real>
    requires i < |xs|
  {
    if i >= window then xs[i - window] else None
  }

  /**
    pandas' own rolling-mean algorithm: one pass keeping the running sum and
    count of the non-NaN entries inside the window, adding the entering entry
    and removing the leaving one.
   */
  method RollingMeanSliding(xs: seq<Option<real>>, window: nat) returns (r: seq<Option<real>>)
    requires window >= 1
    ensures r == RollingMean(xs, window)
  {
    ghost var spec := RollingMean(xs, window);
    r := [];
    var sum := 0.0;
    var nobs := 0;
    var i := 0;
    while i < |xs|
      invariant 0 <= i <= |xs|
      invariant r == spec[..i]
      invariant Tracks(xs, i, window, sum, nobs)
    {
      var leaving := Leaving(xs, i, window);
      var sum' := sum + Contribution(xs[i]) - Contribution(leaving);
      var nobs' := nobs + Observed(xs[i]) - Observed(leaving);
      SlideStep(xs, i, window, sum, nobs, sum', nobs');
      assert spec[..i + 1] == spec[..i] + [spec[i]];
      r := r + [Emit(sum', nobs', window)];
      sum, nobs := sum', nobs';
      i := i + 1;
    }
    assert spec[..i] == spec;
  }

  /** `diff()`: NaN at the first bar, then the change from the previous close. */
  function Diff(close: seq<real>): (r: seq<Option<real>>)
    ensures |r| == |close|
  {
    seq(|close|, i requires 0 <= i < |close| => if i == 0 then None else Some(close[i] - close[i - 1]))
  }

  /** Which half of a price change a series keeps. */
  datatype Side = Gain | Loss

  /**
    `clip(lower=0)` for gains, `-clip(upper=0)` for losses: the size of the
    move on that side, 0 for a move the other way.
   */
  function Part(side: Side, d: real): (r: real)
    ensures r >= 0.0
  {
    match side
    case Gain => if d < 0.0 then 0.0 else d
    case Loss => if d > 0.0 then 0.0 else -d
  }

  /**
    The gain side takes the rise and the loss side the fall: their difference
    is the move itself, and at most one of them is non-zero.
   */
  lemma PartSplit(d: real)
    ensures Part(Gain, d) - Part(Loss, d) == d
    ensures Part(Gain, d) == 0.0 || Part(Loss, d) == 0.0
  {
  }

  /** Applies `Part` entry by entry; NaN stays NaN, as `clip` leaves it. */
  function Clip(s: seq<Option<real>>, side: Side): (r: seq<Option<real>>)
    ensures |r| == |s|
  {
    seq(|s|, i requires 0 <= i < |s| => if s[i].Some? then Some(Part(side, s[i].value)) else None)
  }

  /** The smoothing factor `ewm(span=span)` derives: 2 / (span + 1). */
  function Alpha(span: nat): (a: real)
    requires span >= 1
    ensures 0.0 < a <= 1.0
  {
    2.0 / (span as real + 1.0)
  }

  /** One smoothing step: weight `a` on the new value `x`, `1 - a` on the previous average `p`. */
  function Blend(a: real, x: real, p: real): real {
    a * x + (1.0 - a) * p
  }

  lemma BlendShift(a: real, x: real, p: real, c: real)
    ensures Blend(a, x, p) - c == Times(a, x - c) + Times(1.0 - a, p - c)
  {
  }

  /** A step with 0 < a <= 1 stays between any bounds of its two inputs. */
  lemma BlendBetween(a: real, x: real, p: real, lo: real, hi: real)
    requires 0.0 < a <= 1.0
    requires lo <= x <= hi && lo <= p <= hi
    ensures lo <= Blend(a, x, p) <= hi
  {
    BlendShift(a, x, p, lo);
    NonNegativeTimes(a, x - lo);
    NonNegativeTimes(1.0 - a, p - lo);
    BlendShift(a, x, p, hi);
    NonNegativeTimes(a, hi - x);
    NonNegativeTimes(1.0 - a, hi - p);
    assert Times(a, hi - x) == -Times(a, x - hi);
    assert Times(1.0 - a, hi - p) == -Times(1.0 - a, p - hi);
  }

  /**
    `ewm(span=span, adjust=False).mean()` of a NaN-free column: seeded with the
    first value, then each entry blends the new value into the previous one.
   */
  function Ema(xs: seq<real>, span: nat): (r: seq<real>)
    requires span >= 1
    ensures |r| == |xs|
    decreases |xs|
  {
    if |xs| == 0 then []
    else if |xs| == 1 then [xs[0]]
    else
      var prev := Ema(xs[..|xs| - 1], span);
      prev + [Blend(Alpha(span), xs[|xs| - 1], prev[|prev| - 1])]
  }

  /**
    The recurrence pandas documents for adjust=False: the first entry is the
    first value, and entry t is alpha * x[t] + (1 - alpha) * ema[t - 1].
   */
  lemma EmaRecurrence(xs: seq<real>, span: nat)
    requires span >= 1
    ensures |xs| > 0 ==> Ema(xs, span)[0] == xs[0]
    ensures forall t {:trigger Ema(xs, span)[t], xs[t]} :: 1 <= t < |xs| ==>
      Ema(xs, span)[t] == Alpha(span) * xs[t] + (1.0 - Alpha(span)) * Ema(xs, span)[t - 1]
  {
    if |xs| > 0 {
      EmaFirst(xs, span);
    }
    forall t {:trigger Ema(xs, span)[t], xs[t]} | 1 <= t < |xs|
      ensures Ema(xs, span)[t] == Alpha(span) * xs[t] + (1.0 - Alpha(span)) * Ema(xs, span)[t - 1]
    {
      EmaStep(xs, span, t);
    }
  }

  /** Appending a value keeps every earlier EMA entry. */
  lemma EmaPrefix(xs: seq<real>, span: nat, t: nat)
    requires span >= 1
    requires t + 1 < |xs|
    ensures Ema(xs, span)[t] == Ema(xs[..|xs| - 1], span)[t]
  {
  }

  /** The last EMA entry blends the last value into the entry before it. */
  lemma EmaLast(xs: seq<real>, span: nat)
    requires span >= 1
    requires |xs| >= 2
    ensures Ema(xs, span)[|xs| - 1] == Blend(Alpha(span), xs[|xs| - 1], Ema(xs, span)[|xs| - 2])
  {
    EmaPrefix(xs, span, |xs| - 2);
  }

  lemma {:induction false} EmaFirst(xs: seq<real>, span: nat)
    requires span >= 1
    requires |xs| > 0
    ensures Ema(xs, span)[0] == xs[0]
    decreases |xs|
  {
    if |xs| >= 2 {
      var init := xs[..|xs| - 1];
      EmaFirst(init, span);
      EmaPrefix(xs, span, 0);
    }
  }

  /** Entry t >= 1 is one smoothing step from entry t - 1. */
  lemma {:induction false} EmaStep(xs: seq<real>, span: nat, t: nat)
    requires span >= 1
    requires 1 <= t < |xs|
    ensures Ema(xs, span)[t] == Alpha(span) * xs[t] + (1.0 - Alpha(span)) * Ema(xs, span)[t - 1]
    decreases |xs|
  {
    if t == |xs| - 1 {
      EmaLast(xs, span);
    } else {
      var init := xs[..|xs| - 1];
      EmaStep(init, span, t);
      EmaPrefix(xs, span, t);
      EmaPrefix(xs, span, t - 1);
      assert init[t] == xs[t];
    }
  }

  /** Every EMA entry lies between the least and greatest value seen so far. */
  lemma EmaWithinRange(xs: seq<real>, span: nat)
    requires span >= 1
    ensures forall t :: 0 <= t < |xs| ==>
      Min(xs[..t + 1]) <= Ema(xs, span)[t] <= Max(xs[..t + 1])
  {
    forall t | 0 <= t < |xs|
      ensures Min(xs[..t + 1]) <= Ema(xs, span)[t] <= Max(xs[..t + 1])
    {
      EmaEntryWithin(xs, span, t);
    }
  }

  /** Entry t lies between the least and greatest of the first t + 1 values. */
  lemma EmaEntryWithin(xs: seq<real>, span: nat, t: nat)
    requires span >= 1
    requires t < |xs|
    ensures Min(xs[..t + 1]) <= Ema(xs, span)[t] <= Max(xs[..t + 1])
  {
    var pre := xs[..t + 1];
    forall i | 0 <= i <= t
      ensures Min(pre) <= xs[i] <= Max(pre)
    {
      assert xs[i] == pre[i];
    }
    EmaEntryBetween(xs, span, t, Min(pre), Max(pre));
  }

  /** Bounds that hold for the values up to t hold for the EMA at t. */
  lemma {:induction false} EmaEntryBetween(xs: seq<real>, span: nat, t: nat, lo: real, hi: real)
    requires span >= 1
    requires t < |xs|
    requires forall i :: 0 <= i <= t ==> lo <= xs[i] <= hi
    ensures lo <= Ema(xs, span)[t] <= hi
    decreases t
  {
    if t == 0 {
      EmaFirst(xs, span);
    } else {
      EmaEntryBetween(xs, span, t - 1, lo, hi);
      EmaStep(xs, span, t);
      BlendBetween(Alpha(span), xs[t], Ema(xs, span)[t - 1], lo, hi);
    }
  }

  /** A flat column has a flat EMA: the smoothing cannot move off the only value. */
  lemma EmaOfConstant(xs: seq<real>, span: nat, c: real)
    requires span >= 1
    requires forall i :: 0 <= i < |xs| ==> xs[i] == c
    ensures forall t :: 0 <= t < |xs| ==> Ema(xs, span)[t] == c
  {
    EmaWithinRange(xs, span);
    forall t | 0 <= t < |xs| ensures Ema(xs, span)[t] == c {
      var pre := xs[..t + 1];
      assert pre[t] == c;
      assert Min(pre) in pre && Max(pre) in pre;
    }
  }
}
