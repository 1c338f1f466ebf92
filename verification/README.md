# X-11 multiplicative decomposition, in Dafny

This project models the decomposition routines of
`Python-Forecasting-02-Decomposition.py`. Given a monthly series X, the X-11
procedure splits it into a seasonal factor, a trend and an error. It uses a
fixed chain of centred moving averages, one 13-term Henderson filter and
elementwise ratios.

The series is positional. Entry i is the i-th row, and a missing value
(NaN in the data frame) is `None` in `Series.Obs`. The three routines are:

- `moving_average(timeseries, n)`:
  - It counts the leading run of missing entries (`adjustment`).
  - It writes only positions `[n/2 + adjustment, len - n/2 - adjustment)`.
  - It leaves every other position missing.
  - For even n it accumulates `ts[start + j] * (1/n)` term by term, so one
    missing input makes that output missing.
  - For odd n it divides pandas' skip-missing sum of the window by n, so a
    missing input counts as 0.
- `henderson_seasonal_adjustment(timeseries)`: the same accumulator loop as
  the even branch, with the 13 Henderson weights
  `-0.019, -0.028, 0, 0.066, 0.147, 0.214, 0.240, …` (symmetric).
- `x_11(X)`:
  - step_00 … step_19, as written in the code.
  - It returns `(step_18, step_17, step_19)` as (seasonal, trend, error).

Modules:

- `Series` (series.dfy): observations, series, and the elementwise ratio and
  difference. It also holds `DefinedSum`, the skip-missing window sum, and
  the predicates `NoneOutside`, `DefinedOn` and `Positive` that describe
  where a series is defined.
- `Filters` (filters.dfy): what each filter computes, as functions of the
  input (`LeadingGap`, `Filtered`, `OddMean`, `CenteredAverage`, `Henderson`),
  and lemmas about them:
  - which positions are written and which are defined;
  - the window mean;
  - constants are reproduced;
  - the weights sum to 1;
  - edge erosion.
- `FilterLoops` (filter_loops.dfy): the Python code's loops as methods over a
  preallocated all-missing array. Each method is proved to produce exactly
  the function from `Filters`.
- `X11Pipeline` (x11.dfy): the step chain (`Steps`, `X11`) and what it
  promises:
  - the reconstruction `X = seasonal * trend + error`;
  - the error is `X - step_15`;
  - at least 32 entries at each end of seasonal and trend, and 25 of the
    error, are always undefined;
  - those bounds are exact for a positive, fully defined input whose
    Henderson trend step_10 is also positive.

Three facts about the code shape the model:

- The error is X minus the seasonally adjusted series: line 129 computes
  `step_00 - step_15`. It is neither a ratio nor X minus the seasonal
  component step_18 (`X11Pipeline.Reconstruction`).
- The code validates neither the window size nor the series length. A
  non-empty series too short for a filter just yields an all-missing output
  (`Filters.AverageEdges`, `X11Pipeline.ShortSeriesUndefined`). An empty
  series raises IndexError in the even-window average and the Henderson
  filter, and so in x_11, whose first step is MA(12); the odd-window average
  of an empty series is empty (see "Left out").
- The components fit together additively around the seasonally adjusted
  series: X = seasonal × trend + error wherever all three are defined
  (`X11Pipeline.Reconstruction`).

## Model

| member | source | states |
|---|---|---|
| Filters.LeadingGap | Python-Forecasting-02-Decomposition.py:26-32 | the count is the length of the leading missing run: every entry before it is missing and the entry at it (if any) is defined |
| Filters.GapOfNoneOutside | Python-Forecasting-02-Decomposition.py:26-32 | if nothing before position a is defined, the leading gap is at least a (or spans the whole series) |
| Filters.GapOfDefinedOn | Python-Forecasting-02-Decomposition.py:26-32 | a series defined exactly on [a, len - a) has a leading gap of exactly a (the whole length if that range is empty) |
| FilterLoops.CountLeadingGap | Python-Forecasting-02-Decomposition.py:26-32 | the counting loop with its early break returns exactly the leading-gap length |
| Filters.Center | Python-Forecasting-02-Decomposition.py:34-35 | the first written position is half the window past the leading gap: the window of the first written output starts at the first defined input |
| Filters.Uniform | Python-Forecasting-02-Decomposition.py:39-41 | the n moving-average weights, each of which times n is 1 |
| Filters.Filtered | Python-Forecasting-02-Decomposition.py:43-47 | the weighted filter shared by the even average and the Henderson filter keeps the input's length, and only positions in [center, len - center) can be defined |
| Filters.OddMean | Python-Forecasting-02-Decomposition.py:50-53 | the odd-window average keeps the input's length and is defined exactly on [center, len - center), because the skip-missing sum is never missing |
| FilterLoops.FillWeighted | Python-Forecasting-02-Decomposition.py:43-47 | after the nested loops the output array holds, at each i in [center, len - center), the term-by-term weighted sum of the window starting at i - len(weights)/2, and missing everywhere else |
| FilterLoops.MovingAverage | Python-Forecasting-02-Decomposition.py:21-57 | both branches (1/n weights for even n, skip-missing window sum over n for odd n) return exactly the centred average `Filters.CenteredAverage(ts, n)` |
| FilterLoops.HendersonSeasonalAdjustment | Python-Forecasting-02-Decomposition.py:61-100 | filling the 13 weights and running the accumulator loop returns exactly `Filters.Henderson(ts)` |
| Filters.CenteredAverage | Python-Forecasting-02-Decomposition.py:25 | the averaged series has the input's length (it shares the input's index) |
| Filters.Henderson | Python-Forecasting-02-Decomposition.py:65 | the filtered series has the input's length |
| Filters.AverageEdges | Python-Forecasting-02-Decomposition.py:34-53 | every position before `center` or from `len - center` on is missing; a series no longer than 2·center gives an all-missing average |
| Filters.HendersonEdges | Python-Forecasting-02-Decomposition.py:74-96 | the Henderson centre is 6 + leading gap; positions outside [center, len - center) are missing, all of them when len ≤ 2·center |
| Filters.AccumulateStep | Python-Forecasting-02-Decomposition.py:46 | the one-step unfolding of the line-46 update, kept as a proof helper: a defined accumulator plus a defined input `ts[start + j] * w[j]` stays defined |
| Filters.Accumulate | Python-Forecasting-02-Decomposition.py:44-46 | the accumulator after k inner-loop steps is defined iff every input it has consumed is defined (one missing input makes it missing), both directions |
| Filters.FilteredDefinedIff | Python-Forecasting-02-Decomposition.py:43-47 | a weighted-filter output is defined iff it is written and its whole window is defined |
| Filters.EvenDefinedIff | Python-Forecasting-02-Decomposition.py:38-47 | even n: output i is defined iff i is in [center, len - center) and every input in [i - n/2, i + n/2) is defined |
| Filters.OddDefinedIff | Python-Forecasting-02-Decomposition.py:49-53 | re-exports `Filters.OddMean`'s contract through the parity dispatch of `CenteredAverage`: for odd n, output i is defined iff i is in [center, len - center), whatever the window holds |
| Filters.HendersonDefinedIff | Python-Forecasting-02-Decomposition.py:92-96 | Henderson output i is defined iff it is written and every input in [i - 6, i + 7) is defined |
| Filters.AccumulateEqualWeights | Python-Forecasting-02-Decomposition.py:39-46 | with k equal weights c on a defined window, the accumulator is c times the window sum |
| Filters.AccumulateUniform | Python-Forecasting-02-Decomposition.py:39-46 | with the weights 1/n on a defined window, the accumulator is the window sum divided by n |
| Filters.AccumulateConstant | Python-Forecasting-02-Decomposition.py:92-96 | on a constant window v the accumulator is v times the sum of the weights used |
| Filters.WindowMean | Python-Forecasting-02-Decomposition.py:38-53 | for either parity, a written output whose window is fully defined equals the arithmetic mean of the n window inputs |
| Filters.UniformPrefixSum | Python-Forecasting-02-Decomposition.py:39-41 | the first k weights 1/n sum to k/n |
| Filters.UniformSumsToOne | Python-Forecasting-02-Decomposition.py:39-41 | the n weights 1/n sum to exactly 1 |
| Filters.HendersonWeightsNormalised | Python-Forecasting-02-Decomposition.py:76-90 | the weight table `HendersonWeights` (the 13 constants of lines 78-90) has 13 entries, is symmetric about index 6 and sums to exactly 1 |
| Filters.DefinedSumFillZero | Python-Forecasting-02-Decomposition.py:51 | the skip-missing sum is unchanged when a missing entry is replaced by 0 |
| Filters.OddMissingCountsAsZero | Python-Forecasting-02-Decomposition.py:50-53 | odd n: replacing a missing entry after the leading gap by 0 leaves the whole average unchanged |
| Filters.EvenMissingPropagates | Python-Forecasting-02-Decomposition.py:43-47 | even n: a missing entry after the leading gap is not counted as 0; an output whose window misses only that entry is missing, and writing 0 into the entry makes it defined |
| Filters.AverageOfConstant | Python-Forecasting-02-Decomposition.py:34-53 | a constant, fully defined series is averaged into the same constant, defined exactly on [n/2, len - n/2) |
| Filters.AverageOfConstantAt | Python-Forecasting-02-Decomposition.py:38-53 | a written output whose whole window holds the constant v is defined and equals v |
| Filters.MeanOfConstantWindow | Python-Forecasting-02-Decomposition.py:51 | the skip-missing sum of n copies of v, divided by n, is v |
| Filters.HendersonOfConstant | Python-Forecasting-02-Decomposition.py:74-96 | the Henderson filter reproduces a constant, fully defined series, defined exactly on [6, len - 6) |
| Filters.HendersonOnThirteen | Python-Forecasting-02-Decomposition.py:74-96 | on 13 defined inputs only the centre output is defined, and it equals the weighted sum of all 13 inputs with the table's weights |
| Filters.HendersonMayTurnNegative | Python-Forecasting-02-Decomposition.py:78-90 | the negative end weights let a strictly positive 13-entry series produce a negative Henderson value |
| Filters.FilteredNoneOutside | Python-Forecasting-02-Decomposition.py:43-47 | a weighted filter of width w widens each undefined end by w/2 |
| Filters.AverageNoneOutside | Python-Forecasting-02-Decomposition.py:34-53 | if nothing outside [a, len - a) is defined, nothing outside [a + n/2, len - a - n/2) is defined after the average |
| Filters.HendersonNoneOutside | Python-Forecasting-02-Decomposition.py:74-96 | the Henderson filter widens each undefined end by 6 |
| Filters.FilteredDefinedOn | Python-Forecasting-02-Decomposition.py:43-47 | an input defined exactly on [a, len - a) filters into one defined exactly on [a + w/2, len - a - w/2) |
| Filters.AverageDefinedOn | Python-Forecasting-02-Decomposition.py:34-53 | an input defined exactly on [a, len - a) averages into one defined exactly on [a + n/2, len - a - n/2) |
| Filters.HendersonDefinedOn | Python-Forecasting-02-Decomposition.py:74-96 | the same for the Henderson filter with 6 |
| Filters.AveragePositive | Python-Forecasting-02-Decomposition.py:38-53 | the average of a positive series defined on a symmetric range is positive |
| Series.DefinedSum | Python-Forecasting-02-Decomposition.py:51 | pandas' `.sum()` over the slice ts[lo:hi], which skips missing entries; its properties are the three lemmas below |
| Series.DefinedSumAllMissing | Python-Forecasting-02-Decomposition.py:51 | a slice with no defined entry sums to 0, so an odd-window output over an all-missing window is 0, not missing |
| Series.DefinedSumConstant | Python-Forecasting-02-Decomposition.py:51 | the skip-missing sum of a constant window v of k entries is k·v |
| Series.DefinedSumPositive | Python-Forecasting-02-Decomposition.py:51 | the sum of a non-empty window of positive entries is positive |
| Series.Ratio | Python-Forecasting-02-Decomposition.py:111 | each entry is defined iff both operands are defined and the divisor is non-zero, and then the quotient times the divisor gives back the numerator |
| Series.Difference | Python-Forecasting-02-Decomposition.py:129 | each entry is defined iff both operands are, and then it plus the subtrahend gives back the minuend |
| Series.RatioNoneOutside | Python-Forecasting-02-Decomposition.py:111 | a quotient is undefined wherever either operand is |
| Series.RatioDefinedOn | Python-Forecasting-02-Decomposition.py:111 | positive operands defined on [a, len - a) and [b, len - b) give a positive quotient defined exactly on the narrower range |
| Series.DifferenceNoneOutside | Python-Forecasting-02-Decomposition.py:129 | a difference is undefined wherever either operand is |
| Series.DifferenceDefinedOn | Python-Forecasting-02-Decomposition.py:129 | operands defined on symmetric ranges give a difference defined exactly on the narrower one |
| X11Pipeline.Steps | Python-Forecasting-02-Decomposition.py:108-129 | step_15, step_17, step_18 and step_19 keep the length of X |
| X11Pipeline.X11 | Python-Forecasting-02-Decomposition.py:156 | the three returned components (step_18, step_17, step_19) each have the length of X |
| X11Pipeline.SeasonallyAdjusted | Python-Forecasting-02-Decomposition.py:123 | the seasonally adjusted series step_15 has the length of X |
| X11Pipeline.RatioDifferenceIdentity | Python-Forecasting-02-Decomposition.py:128-129 | for any adjusted series sa and trend t, (sa / t, t, X - sa) multiply back to sa and add back to X wherever defined |
| X11Pipeline.Reconstruction | Python-Forecasting-02-Decomposition.py:123-129 | seasonal × trend = step_15 where both are defined; the error is defined iff X and step_15 are, and equals X - step_15; X = seasonal × trend + error wherever all three are defined |
| X11Pipeline.TrendEstimateEdges | Python-Forecasting-02-Decomposition.py:109-110 | on a fully defined X the 2×12 trend estimate step_02 is defined exactly on [7, len - 7) |
| X11Pipeline.TwoByTwelveEdges | Python-Forecasting-02-Decomposition.py:109-110 | the 2×12 average of a fully defined series is defined exactly on [7, len - 7) |
| X11Pipeline.EdgeErosion | Python-Forecasting-02-Decomposition.py:108-129 | for any X, seasonal and trend are undefined on the first and last 32 entries and the error on the first and last 25 |
| X11Pipeline.SmoothedNoneOutside | Python-Forecasting-02-Decomposition.py:109-111 | a series undefined outside [a, len - a), its two-pass average (windows n1, n2) and the ratio to that average are undefined outside the range narrowed by n1/2 + n2/2 |
| X11Pipeline.FirstPassErosion | Python-Forecasting-02-Decomposition.py:109-117 | step_09 is undefined on its first and last 16 entries, whatever X holds |
| X11Pipeline.SecondPassErosion | Python-Forecasting-02-Decomposition.py:118-123 | if step_09 is undefined on 16 entries at each end, step_15 is undefined on 25 |
| X11Pipeline.FinalErosion | Python-Forecasting-02-Decomposition.py:126-129 | if step_15 is undefined on 25 entries at each end, step_17 and step_18 are undefined on 32 and step_19 on 25 |
| X11Pipeline.ShortSeriesUndefined | Python-Forecasting-02-Decomposition.py:108-129 | a series of at most 64 entries yields an entirely undefined seasonal and trend component |
| X11Pipeline.DefinedRegions | Python-Forecasting-02-Decomposition.py:108-129 | for a positive, fully defined X with a positive Henderson trend, seasonal and trend are positive and defined exactly on [32, len - 32), the error exactly on [25, len - 25) |
| X11Pipeline.RatioToSmoothed | Python-Forecasting-02-Decomposition.py:109-111 | for a positive series defined exactly on [a, len - a), its two-pass average and the ratio to it are positive and defined exactly on the range narrowed by n1/2 + n2/2 |
| X11Pipeline.FirstPassRegion | Python-Forecasting-02-Decomposition.py:109-117 | for a positive, fully defined X, step_09 is positive and defined exactly on [16, len - 16) |
| X11Pipeline.SecondPassRegion | Python-Forecasting-02-Decomposition.py:118-123 | if step_09 is positive on exactly [16, len - 16) and its Henderson trend step_10 is positive, step_15 is positive and defined exactly on [25, len - 25) |
| X11Pipeline.FinalRegion | Python-Forecasting-02-Decomposition.py:126-129 | if step_15 is positive on exactly [25, len - 25), trend step_17 and seasonal step_18 are positive on exactly [32, len - 32) and the error step_19 is defined exactly on [25, len - 25) |

## Left out

- Loading the CSV file, building the date index and calling `x_11` (lines 160-169) are I/O. The date index plays no role in the arithmetic; series are positional.
- The plots and the renaming of the outputs under `graph == True` (lines 131-154) are presentation only.
- Floating point: values are exact reals. Rounding, overflow and `float(...)` conversions are not modelled, so "sums to exactly 1" is a statement about the weights as written in decimal.
- Series.Ratio: a zero divisor gives a missing value. In pandas it gives ±inf, or NaN for 0/0. No model value stands for an infinity.
- FilterLoops.MovingAverage: returns only the filtered series, not the second result `last` (lines 48 and 54). x_11 discards `last`, and on an empty series its computation raises IndexError in the even branch, which is not modelled.
- FilterLoops.HendersonSeasonalAdjustment: likewise omits `last` (line 97) and its IndexError on an empty series.
- FilterLoops.MovingAverage: the window size is a natural number. A negative `n` is accepted by the code but never used by x_11.
- The pandas alignment of two series by index label in `/` and `-` is modelled as positionwise, because every series in x_11 shares X's index.
- The data-frame and column wrapping (lines 23-24, 56-57, 63-64, 99-100) only renames and copies; the model works on the value sequence directly.
- X11Pipeline.DefinedRegions: it needs positivity of the Henderson trend step_10 as a hypothesis. The Henderson filter can turn a positive series negative (`Filters.HendersonMayTurnNegative`), so this is not a consequence of a positive X.
