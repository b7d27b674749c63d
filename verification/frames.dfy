/**
  The DataFrame-level entry points of data_download.py. A frame is a row
  count, an optional `Close` column of prices and the other named columns,
  raw (`Open`, `High`, `Low`, `Volume`) or derived by earlier steps. Without a `Close` column, add_moving_average
  meets a KeyError and returns the frame as it was; calculate_rsi and
  calculate_macd test for the column and return None; add_technical_indicators
  assigns that None as an all-missing `RSI` column and skips the MACD columns.
 */
module Frames {
  import opened Wrappers
  import opened Aggregates
  import opened Series
  import opened Indicators

  const CloseColumn: string := "Close"
  const MovingAverageColumn: string := "Moving_Average"
  const RsiColumn: string := "RSI"
  const MacdColumn: string := "MACD"
  const SignalColumn: string := "Signal_Line"
  const HistogramColumn: string := "Histogram"

  datatype Frame = Frame(rows: nat, close: Option<seq<real>>, columns: map<string, seq<Option<real>>>)

  /**
    Every column, `Close` included, has one entry per row, and `Close` is held
    only in `close`: a frame has one column of each name.
   */
  predicate WellFormed(f: Frame) {
    && (f.close.Some? ==> |f.close.value| == f.rows)
    && CloseColumn !in f.columns
    && forall k :: k in f.columns ==> |f.columns[k]| == f.rows
  }

  /** The frame `f` with column `name` set to `col`, replacing any column of that name. */
  function WithColumn(f: Frame, name: string, col: seq<Option<real>>): (r: Frame)
    ensures r.rows == f.rows && r.close == f.close
    ensures name in r.columns && r.columns[name] == col
    ensures forall k :: k in f.columns && k != name ==> k in r.columns && r.columns[k] == f.columns[k]
    ensures forall k :: k in r.columns ==> k == name || k in f.columns
  {
    f.(columns := f.columns[name := col])
  }

  // ---------------------------------------------------------------- add_moving_average

  /**
    `add_moving_average`: attaches the trailing mean of `window` closes as
    `Moving_Average`. Without a `Close` column the KeyError is caught and the
    frame comes back as it was.
   */
  function AddMovingAverage(data: Option<Frame>, window: nat): (r: Option<Frame>)
    requires window >= 1
    ensures r.None? <==> data.None?
    ensures data.Some? && data.value.close.None? ==> r == data
    ensures data.Some? ==> r.value.rows == data.value.rows && r.value.close == data.value.close
    ensures data.Some? ==> forall k :: k in data.value.columns && k != MovingAverageColumn ==>
      k in r.value.columns && r.value.columns[k] == data.value.columns[k]
    ensures data.Some? ==> forall k :: k in r.value.columns ==> k in data.value.columns || k == MovingAverageColumn
    ensures data.Some? && data.value.close.Some? ==>
      var c := data.value.close.value;
      && MovingAverageColumn in r.value.columns
      && |r.value.columns[MovingAverageColumn]| == |c|
      && (forall i :: 0 <= i < |c| && i + 1 < window ==> r.value.columns[MovingAverageColumn][i] == None)
      && (forall i :: window - 1 <= i < |c| ==>
            r.value.columns[MovingAverageColumn][i] == Some(Mean(c[i + 1 - window..i + 1])))
    ensures data.Some? && WellFormed(data.value) ==> WellFormed(r.value)
  {
    match data
    case None => None
    case Some(f) =>
      match f.close
      case None => data
      case Some(c) =>
        MovingAverageWindows(c, window);
        Some(WithColumn(f, MovingAverageColumn, MovingAverage(c, window)))
  }

  // ---------------------------------------------------------------- calculate_rsi

  /**
    `calculate_rsi`: None without data or without a `Close` column; otherwise
    one entry per row, undefined for the first `periods` rows and a percentage
    after that.
   */
  function CalculateRsi(data: Option<Frame>, periods: nat): (r: Option<seq<Option<real>>>)
    requires periods >= 1
    ensures r.None? <==> data.None? || data.value.close.None?
    ensures r.Some? ==>
      var c := data.value.close.value;
      && |r.value| == |c|
      && (forall i :: 0 <= i < |c| && i < periods ==> r.value[i] == None)
      && (forall i :: periods <= i < |c| ==> r.value[i] == RsiReference(c[i - periods..i + 1]))
      && (forall i :: 0 <= i < |c| && r.value[i].Some? ==> 0.0 <= r.value[i].value <= 100.0)
  {
    if data.None? || data.value.close.None? then None
    else
      var c := data.value.close.value;
      RsiMatchesReference(c, periods);
      RsiBounded(c, periods);
      Some(Rsi(c, periods))
  }

  // ---------------------------------------------------------------- calculate_macd

  /**
    `calculate_macd`: None without data, without a `Close` column, or when a
    span is below 1 (the ValueError `ewm` raises is caught); otherwise the
    three aligned, fully defined columns.
   */
  function CalculateMacd(data: Option<Frame>, fast: int, slow: int, signal: int): (r: Option<Macd>)
    ensures r.None? <==> data.None? || data.value.close.None? || fast < 1 || slow < 1 || signal < 1
    ensures r.Some? ==>
      var n := |data.value.close.value|;
      && |r.value.line| == n && |r.value.signal| == n && |r.value.histogram| == n
      && AllDefined(r.value.line) && AllDefined(r.value.signal) && AllDefined(r.value.histogram)
      && (forall t :: 0 <= t < n ==> r.value.histogram[t].value == r.value.line[t].value - r.value.signal[t].value)
      && (n > 0 ==> r.value.line[0] == Some(0.0) && r.value.signal[0] == Some(0.0) && r.value.histogram[0] == Some(0.0))
    ensures r.Some? ==>
      var c := data.value.close.value;
      forall t :: 0 <= t < |c| ==> r.value.line[t] == Some(Ema(c, fast)[t] - Ema(c, slow)[t])
    ensures r.Some? ==>
      var n := |data.value.close.value|;
      forall t :: 1 <= t < n ==>
        r.value.signal[t] == Some(Blend(Alpha(signal), r.value.line[t].value, r.value.signal[t - 1].value))
  {
    if data.None? || data.value.close.None? || fast < 1 || slow < 1 || signal < 1 then None
    else
      var c := data.value.close.value;
      MacdAligned(c, fast, slow, signal);
      MacdStartsAtZero(c, fast, slow, signal);
      MacdSignalRecurrence(c, fast, slow, signal);
      Some(ComputeMacd(c, fast, slow, signal))
  }

  // ---------------------------------------------------------------- add_technical_indicators

  /** The names add_technical_indicators may attach. */
  predicate IndicatorName(k: string) {
    k == RsiColumn || k == MacdColumn || k == SignalColumn || k == HistogramColumn
  }

  /**
    Assigning `calculate_rsi`'s result as a column: a missing result becomes a
    column of missing values.
   */
  function RsiColumnOf(rows: nat, rsi: Option<seq<Option<real>>>): (r: seq<Option<real>>)
    ensures rsi.Some? ==> r == rsi.value
    ensures rsi.None? ==> |r| == rows && forall i :: 0 <= i < rows ==> r[i] == None
  {
    match rsi
    case Some(col) => col
    case None => seq(rows, _ => None)
  }

  /** Attaches the three MACD columns when there is a MACD result. */
  function WithMacd(f: Frame, macd: Option<Macd>): (r: Frame)
    ensures r.rows == f.rows && r.close == f.close
    ensures forall k :: k in f.columns && k != MacdColumn && k != SignalColumn && k != HistogramColumn ==>
      k in r.columns && r.columns[k] == f.columns[k]
    ensures forall k :: k in r.columns ==> k in f.columns || IndicatorName(k)
    ensures macd.None? ==> r == f
    ensures macd.Some? ==>
      && MacdColumn in r.columns && r.columns[MacdColumn] == macd.value.line
      && SignalColumn in r.columns && r.columns[SignalColumn] == macd.value.signal
      && HistogramColumn in r.columns && r.columns[HistogramColumn] == macd.value.histogram
  {
    match macd
    case None => f
    case Some(m) =>
      WithColumn(WithColumn(WithColumn(f, MacdColumn, m.line), SignalColumn, m.signal), HistogramColumn, m.histogram)
  }

  /**
    `add_technical_indicators`: a copy of the frame with `RSI` (14 periods)
    when `addRsi` and the three MACD columns (12/26/9) when `addMacd` and a
    MACD result exists. The input's own columns and prices are carried over
    untouched, and every added column has one entry per row.
   */
  function AddTechnicalIndicators(data: Option<Frame>, addRsi: bool, addMacd: bool): (r: Option<Frame>)
    ensures r.None? <==> data.None?
    ensures r.Some? ==> r.value.rows == data.value.rows && r.value.close == data.value.close
    ensures r.Some? ==> forall k ::
      && k in data.value.columns
      && !(addRsi && k == RsiColumn)
      && !(addMacd && data.value.close.Some? && (k == MacdColumn || k == SignalColumn || k == HistogramColumn))
      ==> k in r.value.columns && r.value.columns[k] == data.value.columns[k]
    ensures r.Some? ==> forall k :: k in r.value.columns ==> k in data.value.columns || IndicatorName(k)
    ensures r.Some? && addRsi ==> RsiColumn in r.value.columns
    ensures r.Some? && !addRsi ==>
      (RsiColumn in r.value.columns <==> RsiColumn in data.value.columns)
    ensures r.Some? && addMacd && data.value.close.Some? ==>
      MacdColumn in r.value.columns && SignalColumn in r.value.columns && HistogramColumn in r.value.columns
    ensures r.Some? && (!addMacd || data.value.close.None?) ==>
      forall k :: k == MacdColumn || k == SignalColumn || k == HistogramColumn ==>
        (k in r.value.columns <==> k in data.value.columns)
    ensures r.Some? && WellFormed(data.value) ==> WellFormed(r.value)
  {
    match data
    case None => None
    case Some(f) =>
      var rsi := CalculateRsi(data, RsiPeriods);
      var withRsi := if addRsi then WithColumn(f, RsiColumn, RsiColumnOf(f.rows, rsi)) else f;
      var macd := if addMacd then CalculateMacd(data, MacdFast, MacdSlow, MacdSignal) else None;
      Some(WithMacd(withRsi, macd))
  }

  /**
    What add_technical_indicators writes: the `RSI` column is calculate_rsi's
    result, or all missing values when there is no `Close` column; the MACD
    columns are calculate_macd's three series.
   */
  lemma IndicatorColumns(f: Frame, addRsi: bool, addMacd: bool)
    ensures var r := AddTechnicalIndicators(Some(f), addRsi, addMacd).value;
      && (addRsi && f.close.Some? ==> r.columns[RsiColumn] == CalculateRsi(Some(f), RsiPeriods).value)
      && (addRsi && f.close.None? ==>
            |r.columns[RsiColumn]| == f.rows && forall i :: 0 <= i < f.rows ==> r.columns[RsiColumn][i] == None)
      && (addMacd && f.close.Some? ==>
            var m := CalculateMacd(Some(f), MacdFast, MacdSlow, MacdSignal).value;
            && r.columns[MacdColumn] == m.line
            && r.columns[SignalColumn] == m.signal
            && r.columns[HistogramColumn] == m.histogram)
  {
  }
}
