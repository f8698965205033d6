# StockAnalyser KPI engine in Dafny

This is a model of the indicator engine of StockAnalyser (`kpis.py`). It takes a daily price table and turns its closing prices into seven key performance indicators:

- the latest close;
- the 1-day and 30-day returns;
- the 50- and 200-day simple moving averages;
- the 14-period RSI;
- the annualized volatility.

It then renders them as the eight-line text block that becomes the body of the analysis prompt. Every part is a pure function of the closing-price series, so the model is written as functions over `seq<real>`, together with lemmas about them.

Modules:

- `Floats` (floats.dfy): the values a pandas float column can hold: a finite number, ±inf or NaN. It defines the arithmetic used on them: negation, `+`, `-`, `*`, `/` (division by zero gives a signed infinity, and 0/0 gives NaN) and `fillna`.
- `Stats` (stats.dfy): sums and means of exact reals, with their bounds.
- `Rolling` (rolling.dfy): `rolling(window, min_periods).mean()`. It is computed as a running window sum that adds the entering value and drops the leaving one, and it is proved equal to the mean of the values in each window.
- `Indicators` (indicators.dfy):
  - `compute_sma`;
  - `compute_rsi` (the definition at `kpis.py:20`), written as the float expression the code evaluates and proved equal to a closed-form RSI;
  - `annualized_volatility`, via the sample variance.
- `Kpis` (kpis.dfy): `compute_kpis`. It covers the column choice, the errors, the history-length fallbacks and the seven fields.
- `Prompt` (prompt.dfy): `format_kpis_for_prompt`. It includes a concrete `:.2f` renderer, `"\n".join` and the `split("\n")` that the front end applies to the block.

The square root (`np.sqrt`) is a parameter `sqrt: real -> real` of the volatility functions. The lemmas that need it ask only for what a square root provides: it is non-negative on non-negative inputs, and `sqrt(0) == 0`.

`30d_return_pct` compares the last close with `close.iloc[-21]`, which is 20 rows back, yet it falls back to 0.0 unless there are at least 22 closes. `Kpis.ComputeKpis` reproduces this, and `Kpis.ThirtyDayReturn` states it: the 30-day figure compounds the last 20 daily returns.

## Model

| member | source | states |
|---|---|---|
| Rolling.WindowSumsAt | kpis.py:17-18 | The running window sum at row i is the sum of the closes in rows max(0, i-w+1)..i. |
| Rolling.RollingMean | kpis.py:17-18 | `rolling(w, min_periods=m).mean()` has one value per row. The value is NaN when the window holds fewer than m values, otherwise the mean of the window. |
| Indicators.Sma | kpis.py:17-18 | compute_sma has a value on every row: the mean of the closes max(0, i-w+1)..i, so it averages fewer than w closes on the first rows. |
| Indicators.Gains | kpis.py:21-22 | `delta.where(delta > 0, 0)`: one value per close, never negative. The first row, whose delta is NaN, is 0. Indicators.PriceMoveSplit relates it to the price change. |
| Indicators.Losses | kpis.py:21-23 | `-delta.where(delta < 0, 0)`: one value per close, never negative, and 0 on the first row. Indicators.PriceMoveSplit relates it to the price change. |
| Indicators.PriceMoveSplit | kpis.py:21-23 | The gain and the loss at a row are non-negative and never both non-zero. Both are 0 on the first row, and afterwards gain minus loss is the price change into that row. |
| Indicators.ReferenceRsiRange | kpis.py:24-26 | The RSI of averages g, l >= 0 lies in [0, 100]. It is 100 exactly when l = 0 and g > 0, 0 exactly when g = 0 and l > 0, and 50 exactly when g = l. |
| Indicators.RsiFromAverages | kpis.py:24-26 | One row of `100 - 100/(1 + gain/loss)` followed by `fillna(50)`, in the float arithmetic of `Floats`. Indicators.RsiFromAveragesAgrees states what it yields. |
| Indicators.RsiFromAveragesAgrees | kpis.py:24-26 | `(100 - 100/(1 + gain/loss)).fillna(50)` in float arithmetic equals the closed-form RSI: gain/0 is +inf, so the RSI is 100; 0/0 is NaN, so the RSI is 50. On warm-up rows both averages are NaN, so the result is 50. |
| Indicators.Rsi | kpis.py:20-26 | compute_rsi has one value per row. The value is exactly 50 on rows i < period-1, and otherwise the closed-form RSI of the window's plain mean gain and mean loss. |
| Indicators.RsiBounds | kpis.py:20-26 | Every RSI value is a number in [0, 100]. It is 50 on warm-up rows. It is 100 if and only if the window has average loss 0 and average gain > 0. It is 50 when both averages are 0. |
| Indicators.Returns | kpis.py:29 | `pct_change().dropna()` gives one simple return per step: n-1 returns for n > 0 closes. |
| Indicators.SampleVarianceRange | kpis.py:30 | `std()` with denominator n-1: the variance is NaN if and only if there are fewer than two values. Otherwise it is a non-negative number, and it is zero if and only if all values are equal. |
| Indicators.SampleVariance | kpis.py:30 | The variance behind `std()`: squared deviations from the mean, summed and divided by n-1; NaN for fewer than two values. Indicators.SampleVarianceRange states its range. |
| Indicators.SampleStd | kpis.py:30 | `std()` is NaN if and only if there are fewer than two values, and a number if and only if there are at least two. |
| Indicators.AnnualizedVolatility | kpis.py:28-30 | `returns.std() * np.sqrt(trading_days)`, with the square root as a parameter. The three lemmas below state when it is defined, its sign, and its value on constant prices. |
| Indicators.VolatilityDefinedFromThreeCloses | kpis.py:28-30 | annualized_volatility is NaN if and only if there are fewer than three closes, and a number if and only if there are at least three. |
| Indicators.VolatilityNonNegative | kpis.py:28-30 | Whenever annualized_volatility is a number, it is non-negative. |
| Indicators.ConstantPricesZeroVolatility | kpis.py:28-30 | At least three constant closes give a volatility of exactly 0. |
| Kpis.PriceColumn | kpis.py:33 | It reads "Adj Close" when that column exists, otherwise "Close", and gives KeyError('Close') exactly when neither exists. |
| Kpis.ComputeKpis | kpis.py:32-42 | It raises KeyError('Close') exactly when neither "Adj Close" nor "Close" is a column, and IndexError exactly when the chosen column is empty. Otherwise it succeeds, reads "Adj Close" when that column exists, and latest_close is the last close. |
| Kpis.Closes | kpis.py:33 | The chosen column of a table with positive prices is a positive series. |
| Kpis.KpisOf | kpis.py:34-42 | The dictionary built from a non-empty series of closes, field by field. The lemmas below state each field. |
| Kpis.KpisOfTable | kpis.py:32-42 | Whenever compute_kpis succeeds, its result is the KPI set of the chosen column, and that column is non-empty. |
| Kpis.OneDayReturnPct | kpis.py:36 | `(close[-1]/close[-2] - 1) * 100` with two closes or more, else 0.0. Kpis.OneDayReturn states it as the last simple return. |
| Kpis.ThirtyDayReturnPct | kpis.py:37 | `(close[-1]/close[-21] - 1) * 100` with 22 closes or more, else 0.0. Kpis.ThirtyDayReturn states it as 20 compounded returns. |
| Kpis.KpiSmasAreTrailingMeans | kpis.py:38-39 | sma_50 and sma_200 are the means of the last min(n, 50) and min(n, 200) closes. |
| Kpis.GrowthTelescopes | kpis.py:36-37 | Compounding the simple returns from row a to row b gives c[b]/c[a]: the returns the KPIs compare against are consistent with pct_change. |
| Kpis.OneDayReturn | kpis.py:36 | 1d_return_pct is 0.0 with fewer than two closes; otherwise it is the last simple return, in percent. |
| Kpis.ThirtyDayReturn | kpis.py:37 | 30d_return_pct is 0.0 with fewer than 22 closes. Otherwise it compounds exactly the last 20 daily returns, in percent, because `iloc[-21]` is 20 rows back. |
| Kpis.KpiRsiRange | kpis.py:40 | rsi_14 is a number in [0, 100], and exactly 50 with fewer than 14 closes. |
| Kpis.KpiVolatility | kpis.py:41 | annual_volatility_pct is NaN if and only if there are fewer than three closes. Otherwise it is a non-negative number, and it is 0 for constant closes. |
| Kpis.SingleCloseKpis | kpis.py:32-42 | A one-row table with close p gives latest_close p, both returns 0.0, both SMAs p, RSI 50 and volatility NaN. |
| Kpis.RisingClosesKpis | kpis.py:36-39 | With strictly increasing closes, both returns are positive once their guards are met. From 51 closes on, sma_50 exceeds sma_200. |
| Prompt.DecimalRoundTrip | kpis.py:47-53 | Reading back the decimal numeral of n gives n. |
| Prompt.RoundHalfEven | kpis.py:47-53 | The rounding used by `:.2f` is within one half of its argument. |
| Prompt.HundredthsParse | kpis.py:47-53 | "units.dd" for n hundredths reads back as n/100. |
| Prompt.Fmt2Parse | kpis.py:47-53 | A number printed with `:.2f` reads back as its sign and its magnitude rounded to hundredths. |
| Prompt.Fmt2Accurate | kpis.py:47-53 | A number printed with `:.2f` always reads back as a number, and that number lies within 0.005 of the original. |
| Prompt.NeutralValuesPrinted | kpis.py:48-52 | The fallback values print as "0.00" and "50.00". |
| Prompt.Fmt2 | kpis.py:47-53 | `:.2f` prints a non-empty text of digits, ".", "-" and the letters of "nan" and "inf", so never a newline. Prompt.Fmt2Parse and Prompt.Fmt2Accurate state what it reads back as. |
| Prompt.Lines | kpis.py:45-54 | The eight lines around already-rendered numbers. Prompt.LinesAt gives each line, and Prompt.LinesHaveNoNewline shows that no line holds a newline unless a part does. |
| Prompt.PromptLines | kpis.py:45-54 | The list `lines`: exactly eight lines, each number printed with `:.2f`. |
| Prompt.Join | kpis.py:55 | `"\n".join(lines)`. Prompt.SplitJoin states that splitting undoes it. |
| Prompt.FormatKpisForPrompt | kpis.py:44-55 | format_kpis_for_prompt: the lines joined by newlines. Prompt.PromptShape states its shape. |
| Prompt.LastIndexOf | streamlit_stock_analyser.py:82 | The position found holds the separator, and no separator follows it. When no position is found, the string has no separator. |
| Prompt.Split | streamlit_stock_analyser.py:82 | `str.split` always returns at least one piece. |
| Prompt.SplitJoin | kpis.py:55 | `"\n".join` of lines without a newline, split again on "\n", gives back exactly those lines. |
| Prompt.PromptSplitsIntoLines | kpis.py:44-55 | For a ticker without a newline, splitting the block on "\n" gives back exactly its eight lines. |
| Prompt.PromptShape | kpis.py:44-55 | For a ticker without a newline, the block has exactly eight lines, in the fixed order and with the fixed labels. The close and both SMAs carry "$", the returns and volatility carry "%", and the RSI is bare. The block ends in "%", not a newline. |
| Prompt.SingleClosePrompt | kpis.py:32-55 | For a one-row table, the rendered block reads "1-day Return: 0.00%", "30-day Return: 0.00%", "RSI(14): 50.00" and "Annualized Volatility: nan%". |

## Left out

- `kpis.py:10-15`, the first `compute_rsi`: dead code, because the definition at line 20 replaces it when the module loads.
- `kpis.py:4-8`, `calculate_technical_indicators`: nothing calls it. It updates a DataFrame in place and is not part of the KPI path.
- IEEE-754 rounding and signed zero: the model computes over exact reals. It keeps only the float behaviour the code's results depend on: NaN, ±inf, division by zero and `fillna`.
- pandas' compensated (Kahan) summation inside rolling means is not modelled; the model's running window sum is exact.
- `np.sqrt` is a parameter of the volatility functions, since exact reals have no square root function. Only its non-negativity and `sqrt(0) == 0` are assumed by the lemmas that need them.
- Prompt.Fmt2: rounds the exact real value half-to-even. Python rounds the nearest binary double, so a value such as 2.675 prints as "2.67" there and as "2.68" here.
- Kpis.ComputeKpis: requires positive values in the column it reads (`ValidPrices`); the other column is unconstrained. Tables with zero, negative or missing (NaN) closes, where pandas would produce infinities or skip values, are not modelled.
- Indicators.Sma: requires a window of at least 1, because pandas raises when `min_periods=1` exceeds a window of 0. compute_kpis only uses 50 and 200.
- Indicators.Rsi: requires a period of at least 1, because every caller passes 14. For a period of 0, pandas accepts `rolling(0)`, every mean is NaN, and `fillna(50)` would give 50 on every row; the model does not cover that case.
- Prompt.PromptShape: requires a ticker without a newline. Such a ticker adds lines to the split, and the block itself is still defined for it.
- Prompt.PromptSplitsIntoLines: requires a ticker without a newline, for the same reason.
- The data download (`data_downloader.py`), the LLM call and environment loading (`stock_analyser.py`), and the Streamlit UI and line colouring (`streamlit_stock_analyser.py`): I/O, foreign calls and presentation. `test_deployment.py` is not part of this model.
- Dates and the other price columns (Open, High, Low, Volume) are not modelled; only the closing-price columns are read.
