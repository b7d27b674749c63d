# Stock indicator arithmetic of data_download.py, in Dafny

This project models the indicator and statistics functions of the
stock-analysis tool's `data_download.py`. These functions take a table of
daily price bars. Most of them read its `Close` column;
calculate_standard_deviation reads whichever column it is given, and
add_technical_indicators carries every column of its input into its result:

- the trailing moving average;
- the average closing price;
- the strong-fluctuation alert;
- RSI;
- MACD with its signal line and histogram;
- the combined "add technical indicators" step;
- the dispersion statistics;
- the trend analysis.

The model keeps pandas' conventions as the code relies on them:

- **Numbers.** Prices are exact reals.
- **Missing values.** A derived column is a sequence of `Option<real>`, where `None` stands for pandas' NaN. The NaN-skipping reductions (`mean`, `var`, `min`, `max`) see only the defined entries (`Series.Defined`).
- **Unguarded division.** Where the code divides without a guard, the result is an IEEE value. `Ieee.Float` has `Finite`, `PosInf`, `NegInf` and `NaN`. The outcome is then modelled: RSI's 0/0 and x/0 cases, a zero lowest close in the fluctuation alert, and `pct_change` after a zero close.
- **Frames.** A frame (`Frames.Frame`) is a row count, an optional `Close` column and a map of the other named columns, raw (`Open`, `High`, `Low`, `Volume`) or derived. A well-formed frame (`Frames.WellFormed`) has one entry per row in every column and holds `Close` only once. A missing `Close` column is handled as each entry point handles it. calculate_rsi and calculate_macd test for it explicitly and return `None` (data_download.py:171, :209). add_technical_indicators never reads `Close` itself: it assigns the `None` that calculate_rsi returns as the `RSI` column, which becomes a column of missing values (:259), and it skips the concatenation when calculate_macd returns `None` (:264). The remaining entry points read the column inside their `try` block and recover from the `KeyError` as their `except` clause does. add_moving_average returns the frame unchanged. calculate_average_price, notify_if_strong_fluctuations, calculate_standard_deviation and advanced_price_analysis return `None`.

Module layout:

- `wrappers.dfy` — `Option`.
- `ieee.dfy` — the IEEE special values.
- `aggregates.dfy` — sum, mean, min, max, sample variance and the real-arithmetic facts about them.
- `series.dfy` — pandas primitives: `rolling(window).mean()` (a reference definition plus the sliding-sum algorithm pandas runs, proved equal), `diff`, `clip`, and `ewm(span, adjust=False).mean()`.
- `indicators.dfy` — the moving average, RSI and MACD on a price sequence.
- `frames.dfy` — the DataFrame-level entry points `add_moving_average`, `calculate_rsi`, `calculate_macd` and `add_technical_indicators`.
- `statistics.dfy` — `calculate_average_price`, `notify_if_strong_fluctuations`, `calculate_standard_deviation` and `advanced_price_analysis`.

Each computation has an independent partner and is proved against it:

- RSI's `100 - 100/(1 + RS)`, computed from rolling averages of clipped differences, equals the share of gains in the window's total movement, `100·G/(G+L)`. The gain/loss split itself is pinned by `Series.PartSplit` (gain − loss is the price change), and on prices alone a strictly rising window gives 100 and a strictly falling one gives 0.
- The MACD line is the fast EMA minus the slow EMA. The signal line starts at the line's first value and then follows the `adjust=False` recurrence, and every EMA stays within the range of its input.
- The product of the daily growth factors `1 + r[t]` equals last/first. This ties the daily returns to the total return.
- The sample variance satisfies the shortcut formula (n - 1)·var = Σx² - (Σx)²/n, and it is zero exactly for a flat series.

Three numeric edge cases follow from unguarded operations in the code:

- **Zero lowest close.** The division by the lowest close at data_download.py:100 is unguarded. With a zero low and a positive high, the range percentage is infinite and the alert fires for every threshold (`Statistics.ZeroMinimumAlwaysAlerts`).
- **Flat RSI window.** A window of unchanged closes gives 0/0 at data_download.py:188, so RS and RSI are NaN and the entry is missing (`Indicators.RsiFlatWindow`).
- **Single bar.** With a single bar, `pct_change` has no defined entry, so the mean daily return at data_download.py:326 is NaN rather than an error (`Statistics.SingleBarMeanReturn`).

## Model

| member | source | states |
|---|---|---|
| Series.RollingMeanSliding | data_download.py:57 | pandas' running-sum rolling mean (add the entering value, drop the leaving one, emit once the window holds `window` observations) equals the per-window reference mean, entry by entry |
| Indicators.MovingAverageWindows | data_download.py:57 | the moving average is missing for the first `window - 1` rows and is the mean of the last `window` closes from then on |
| Frames.AddMovingAverage | data_download.py:52-61 | None exactly when there is no data; without `Close` the frame comes back unchanged; otherwise `Moving_Average` holds the trailing means, no other column is added, every other column and the prices are untouched, and a well-formed frame stays well-formed |
| Statistics.CalculateAveragePrice | data_download.py:64-76 | None without data or `Close`; NaN for an empty column; otherwise a finite value between the lowest and highest close whose product with the number of closes is their total |
| Aggregates.MeanWithinRange | data_download.py:71 | the mean of a non-empty sequence lies between its minimum and maximum |
| Statistics.NotifyIfStrongFluctuations | data_download.py:78-121 | no alert without data, `Close` or closes; an alert carries the ticker, a lowest and a highest close that bound every close, and a percentage above the threshold |
| Statistics.FluctuationAlertIff | data_download.py:96-117 | for positive closes the alert fires if and only if (max - min) / min * 100 exceeds the threshold, and then reports exactly min, max and that percentage |
| Statistics.FlatSeriesNeverAlerts | data_download.py:96-117 | a series that never moves never alerts, for any non-negative threshold |
| Statistics.ZeroMinimumAlwaysAlerts | data_download.py:96-104 | a zero lowest close with a positive highest close gives an infinite percentage and an alert for every threshold |
| Indicators.RsiMatchesReference | data_download.py:177-191 | RSI is missing for the first `periods` rows, and from then on equals 100·G/(G+L) over the last `periods` price moves (G the total gain, L the total loss), missing when nothing moved |
| Indicators.RsiAt | data_download.py:177-191 | one RSI entry past the warm-up equals the gain-share reference over its window |
| Indicators.ClippedAverage | data_download.py:177-185 | the rolling mean of the clipped differences is the window's total gain (or loss) divided by `periods` |
| Indicators.RsiEntryCases | data_download.py:187-191 | with no loss and some gain RSI is 100; with neither it is missing; any defined value is between 0 and 100 |
| Indicators.RsiFormulaExact | data_download.py:187-191 | in IEEE arithmetic 100 - 100/(1 + g/l) is NaN when g + l = 0 and otherwise exactly 100·g/(g+l), the infinite RS of a zero loss included |
| Indicators.RsiBounded | data_download.py:163-193 | every defined RSI entry lies in [0, 100] |
| Indicators.RsiLocal | data_download.py:177-191 | an RSI entry depends only on the last `periods + 1` closes |
| Indicators.RsiFlatWindow | data_download.py:177-191 | a window whose closes never move gives a missing RSI entry, the 0/0 of the unguarded division |
| Series.PartSplit | data_download.py:180-181 | the gain part of a price change minus its loss part is the change itself, and at most one of the two is non-zero, so the gain series keeps the rises and the loss series the falls |
| Indicators.RsiRisingWindow | data_download.py:177-191 | closes strictly increasing over the periods + 1 bars ending at bar i give an RSI of exactly 100 at i |
| Indicators.RsiFallingWindow | data_download.py:177-191 | closes strictly decreasing over the periods + 1 bars ending at bar i give an RSI of exactly 0 at i |
| Frames.CalculateRsi | data_download.py:163-196 | None exactly without data or `Close`; otherwise one entry per row, missing for the first `periods` rows, the gain-share reference after that, and every defined value in [0, 100] |
| Series.EmaRecurrence | data_download.py:215-222 | `ewm(adjust=False)` starts at the first value and then sets each entry to alpha·x[t] + (1 - alpha)·ema[t-1] |
| Series.EmaWithinRange | data_download.py:215-222 | every EMA entry lies between the lowest and highest input seen so far |
| Series.EmaOfConstant | data_download.py:215-222 | a constant input has a constant EMA |
| Indicators.MacdAligned | data_download.py:215-225 | the MACD line, signal line and histogram each have one defined entry per close; the line is the fast EMA of the closes minus the slow EMA; the signal starts at the line's first value; histogram = line - signal |
| Indicators.MacdSignalRecurrence | data_download.py:222 | the signal line is the `ewm(span=signal)` smoothing of the MACD line: each entry blends the current MACD value into the previous signal value |
| Indicators.MacdStartsAtZero | data_download.py:215-225 | all three MACD series start at 0, since both EMAs start at the first close |
| Indicators.MacdOfFlatSeries | data_download.py:215-225 | a flat price series has MACD, signal and histogram all 0 |
| Frames.CalculateMacd | data_download.py:199-237 | None exactly without data, without `Close`, or with a span below 1; otherwise three aligned, fully defined series: the line is the fast EMA minus the slow EMA, each signal entry blends the current line value into the previous signal value, histogram = line - signal, and all three start at 0 |
| Frames.AddTechnicalIndicators | data_download.py:240-271 | None exactly without data; prices, row count and non-indicator columns are untouched; only indicator columns are added; `RSI` is present when requested; the MACD columns are present when requested and `Close` exists; every input column that is not re-added, indicator names included, keeps its values; a well-formed frame stays well-formed |
| Frames.IndicatorColumns | data_download.py:255-265 | the `RSI` column is calculate_rsi's 14-period result, or all missing without `Close`; the MACD columns are calculate_macd's 12/26/9 series |
| Statistics.Dispersion | data_download.py:288-292 | the variance exists from two values on, is non-negative, is 0 exactly for a flat series, and times n - 1 equals the sum of squares minus the squared sum over n (the `ddof=1` denominator); min and max are values of the column that bound every value and contain the mean; the range is max - min and non-negative |
| Statistics.CalculateStandardDeviation | data_download.py:274-309 | None without data or for a missing column; otherwise the dispersion of the column's defined values |
| Statistics.CloseDispersion | data_download.py:288-292 | on `Close` the statistics are those of all closes, none skipped |
| Aggregates.VarianceShortcut | data_download.py:289 | (n - 1) times the sample variance equals the sum of squares minus the squared sum over n, for every sequence of two or more values |
| Aggregates.VarianceZeroIffConstant | data_download.py:289 | the sample variance of two or more values is non-negative and is 0 if and only if all values are equal |
| Statistics.PctChangeShape | data_download.py:324 | `pct_change` is NaN at the first bar and the relative change after a non-zero close; after a zero close it is NaN when the next close is also 0, and otherwise infinite with the sign of the next close |
| Statistics.PctChangeOfNonZero | data_download.py:324 | with no zero close, `pct_change` is NaN followed by the finite daily returns |
| Statistics.SingleBarMeanReturn | data_download.py:324-326 | a single bar has a NaN mean daily return |
| Statistics.NanMeanOfFinites | data_download.py:326 | the NaN-skipping mean of NaN followed by finite returns is their exact mean |
| Statistics.MeanReturnOfPositivePrices | data_download.py:324-326 | for positive closes the mean daily return is the mean of the relative changes between consecutive closes |
| Statistics.AdvancedPriceAnalysis | data_download.py:312-354 | None exactly without data, without `Close` or with no closes (`iloc[0]` fails); start and end price are the first and last close; the total return is the percentage change from start to end when the start is non-zero |
| Statistics.TotalReturnSign | data_download.py:335 | for a positive start price the total return is finite and positive, zero or negative exactly as the last close is above, equal to or below the first |
| Statistics.CompoundedReturns | data_download.py:324-335 | compounding the daily returns gives last close / first close |
| Statistics.TotalReturnCompounds | data_download.py:324-335 | the total return percent is (product of the daily growth factors - 1) · 100, tying the daily returns to the trend statistic |

## Left out

- fetch_stock_data, export_data_to_csv, data_plotting.py and main.py: download, file output, charting and the menu are I/O with no arithmetic.
- Printing and logging: every `print` is a side effect with no bearing on the results.
- The generic `except Exception` branches are modelled only where a concrete error is reachable: a missing `Close` column, an empty column at `iloc[0]`, a span below 1 in `ewm`, and no data.
- std_deviation and coefficient_variation in calculate_standard_deviation, and daily_volatility and annualized_volatility in advanced_price_analysis: these need a square root of a real, which is not modelled. Only the sample variance of a column, behind std_deviation, is modelled (`Statistics.Dispersion`); the variance of the daily returns, behind the two volatilities, is not.
- Floating-point rounding: prices are exact reals. Only the special values reachable through the unguarded divisions (infinities and NaN) are modelled, and the sign of a zero divisor is taken as +0.
- Statistics.NotifyIfStrongFluctuations: `fluctuation_percent` is reported unrounded; `round(…, 2)` is not modelled.
- A NaN close: the model assumes that the `Close` column holds no NaN. fetch_stock_data (:38-45) does not filter NaN out, so a frame with a missing close is outside the model. Missing entries are modelled in the other columns.
- Frames.AddMovingAverage: data_download.py writes `Moving_Average` into the caller's own frame and returns that same object; the model returns a new frame value, so the aliasing is not modelled.
- Default arguments: add_moving_average's `window_size=5` (:52), notify_if_strong_fluctuations's `threshold=5` (:78) and calculate_standard_deviation's `column='Close'` (:274) are not modelled as defaults. The model's functions take these values as explicit parameters, and a default is the same call with that value.
- Frames.AddMovingAverage: requires `window >= 1`; what pandas' `rolling` does with a window below 1 is not modelled.
- Frames.CalculateRsi: requires `periods >= 1`; what pandas' `rolling` does with a window below 1 is not modelled.
- Frames.AddTechnicalIndicators: when the frame already has MACD columns, `pd.concat` keeps duplicate columns, whereas the model replaces them.
- Statistics.Dispersion: the exact two-pass sample variance is modelled, not pandas' floating-point algorithm.
- Statistics.AdvancedPriceAnalysis: for a zero close inside the series, the NaN-skipping mean of returns that include an infinity is computed through the IEEE special values, but no property is stated about it.
