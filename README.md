# From-scratch signal statistics, modelled in Dafny

The analysed program reads a two-channel physiological recording (ECG in mV,
non-invasive blood pressure in mmHg), cuts a ten-second window and describes
each channel with statistics it computes by hand, without a numerical
library:

- `media`: the arithmetic mean;
- `varianza`: the sample variance, with Bessel's divisor N − 1;
- `desv_estandar`: its square root;
- `coef_variacion`: the coefficient of variation in percent;
- `asimetria`: the skewness, standardised cubes divided by N;
- `curtosis`: the excess kurtosis, standardised fourth powers divided by N, minus 3;
- `histograma_manual`: a histogram with `n_bins` equal bins over [min, max].

This project models that engine over exact real numbers.

- `outcomes.dfy` (module `Outcomes`): the failure kinds. The engine raises
  Python exceptions on degenerate input; here they are `Failure` values.
  - `DivisionByZero`: a `ZeroDivisionError`.
  - `EmptySequence`: the `ValueError` of `min` on no samples.
  - `IndexOutOfRange`: the `IndexError` of the count list.
- `sums.dfy` (module `Sums`):
  - the sums, powers, minimum and maximum the engine uses;
  - the change of units `y = a·x + b` (predicate `IsAffine`);
  - the small real-arithmetic facts the proofs rest on.
- `moments.dfy` (module `Moments`):
  - what each statistic is: `Mean`, `Variance`, `IsStdDev`,
    `CoefficientOfVariation`, `Skewness`, `ExcessKurtosis`;
  - the properties of the statistics proved here:
    - the mean lies between min and max;
    - the variance is non-negative, and zero exactly for a constant signal;
    - a zero standard deviation is what makes skewness and kurtosis divide by zero;
    - the kurtosis is never below −3;
    - the standardised squares sum to N − 1;
  - how each statistic behaves under the raw-to-physical conversion the
    program applies to every sample.
- `statistics.dfy` (module `Statistics`): one method per engine function,
  with the engine's accumulation loop and its order of calls.
  - Each is proved to return the statistic defined in `Moments`.
  - Each fails on exactly the inputs where the engine raises.
- `histogram.dfy` (module `Histogram`): the binning loop over an array of
  counts, and what it computes:
  - every sample lands in the one bin whose interval holds it;
  - the counts add up to N;
  - the relative frequencies add up to 1;
  - every centre lies in its own bin.

Three points of the code decide what the model does at the edges:

- **Zero mean in the coefficient of variation.** `coef_variacion`
  (`sin_funciones.py:127`) divides by `abs(media(x))` without a guard, so a
  zero mean raises and `CoefVariacion` fails with `DivisionByZero`. The
  library-based variant guards this case and returns `np.inf`
  (`captura_DAQ.py:143`); the engine does not.
- **Constant signal in the histogram.** For a constant signal the bin width
  `(x_max - x_min) / n_bins` (`sin_funciones.py:187`) is simply 0.0. The
  division that raises is the first sample's offset divided by that width
  (`sin_funciones.py:191`), and `HistogramaManual` fails there.
- **Bin index.** The bin index is computed with `int()`
  (`sin_funciones.py:191`), which truncates toward zero; `Trunc` models that.
  With a positive bin count every offset is non-negative, so truncation and
  the floor agree there.

## Model

| member | source | states |
|---|---|---|
| `Sums.Min` | sin_funciones.py:185 | the minimum is at most every sample and is one of them |
| `Sums.Max` | sin_funciones.py:186 | the maximum is at least every sample and is one of them |
| `Sums.AffineElementwise` | sin_funciones.py:28-34 | the unit conversion relation holds exactly when every converted sample is a·xᵢ + b |
| `Moments.CoefficientOfVariation` | sin_funciones.py:117-127 | the coefficient of variation is never negative |
| `Moments.MeanOfConstant` | sin_funciones.py:68-82 | the mean of a constant signal is that constant |
| `Moments.MeanBetween` | sin_funciones.py:68-82 | any common bounds on the samples bound the mean |
| `Moments.MeanBounds` | sin_funciones.py:77-82 | min(x) ≤ mean ≤ max(x) |
| `Moments.MeanAffine` | sin_funciones.py:77-82 | after y = a·x + b the mean is a·μ + b |
| `Moments.SumSqDevNonNegative` | sin_funciones.py:99-101 | the accumulated squared deviations are never negative |
| `Moments.SumSqDevZero` | sin_funciones.py:99-101 | the squared deviations sum to zero if and only if every sample equals the centre |
| `Moments.VarianceNonNegative` | sin_funciones.py:85-102 | the sample variance is never negative, so its square root exists |
| `Moments.VarianceZeroIffConstant` | sin_funciones.py:85-102 | the variance is zero if and only if the signal is constant |
| `Moments.StdDevUnique` | sin_funciones.py:105-114 | the standard deviation is determined by the samples: two non-negative roots of the variance are equal |
| `Moments.StdDevZeroIffConstant` | sin_funciones.py:105-114 | the standard deviation is zero if and only if the signal is constant |
| `Moments.SumSqDevAffine` | sin_funciones.py:99-101 | after y = a·x + b the squared deviations about a·μ + b are a² times the original ones |
| `Moments.VarianceRatio` | sin_funciones.py:102 | two windows of the same length whose squared-deviation sums are in ratio g have variances in ratio g |
| `Moments.VarianceAffine` | sin_funciones.py:85-102 | after y = a·x + b the variance is a² times the original; a baseline shift leaves it unchanged |
| `Moments.StdDevAffine` | sin_funciones.py:105-114 | after y = a·x + b the standard deviation is abs(a) times the original |
| `Moments.CoefficientOfVariationScale` | sin_funciones.py:117-127 | a pure gain of either sign leaves the coefficient of variation unchanged |
| `Moments.SumStdPowAffine` | sin_funciones.py:145-147 | after y = a·x + b each standardised power sum keeps its value when sign(a)^k = 1 and flips sign when it is −1 |
| `Moments.SkewnessAffine` | sin_funciones.py:130-148 | after y = a·x + b the skewness is sign(a) times the original |
| `Moments.ExcessKurtosisAffine` | sin_funciones.py:151-172 | after y = a·x + b the excess kurtosis is unchanged |
| `Moments.SumStdPowFourthNonNegative` | sin_funciones.py:169-171 | the accumulated standardised fourth powers are never negative |
| `Moments.ExcessKurtosisLowerBound` | sin_funciones.py:151-172 | the excess kurtosis is at least −3 |
| `Moments.SumStdPowSquares` | sin_funciones.py:145-147 | the standardised squares sum to the squared deviations divided by s² |
| `Moments.StandardisedSquaresSum` | sin_funciones.py:140-148 | with the Bessel-corrected s, the standardised squares sum to N − 1, not N |
| `Moments.GainConversion` | sin_funciones.py:28-34 | converting readings as (reading − baseline) / gain with gain > 0 divides the standard deviation by the gain and leaves skewness and kurtosis unchanged |
| `Statistics.Media` | sin_funciones.py:68-82 | succeeds exactly on a non-empty window; its loop sum is Σxᵢ and the result is the mean, otherwise DivisionByZero |
| `Statistics.Varianza` | sin_funciones.py:85-102 | succeeds exactly when N ≥ 2; the result is the sample variance and non-negative, otherwise DivisionByZero |
| `Statistics.DesvEstandar` | sin_funciones.py:105-114 | succeeds exactly when N ≥ 2 with the non-negative root of the variance, which is zero exactly for a constant signal |
| `Statistics.CoefVariacion` | sin_funciones.py:117-127 | succeeds exactly when N ≥ 2 and the mean is non-zero; the result is (s / abs(μ))·100 and non-negative |
| `Statistics.Asimetria` | sin_funciones.py:130-148 | succeeds exactly when N ≥ 2 and the signal is not constant; the result is the skewness |
| `Statistics.Curtosis` | sin_funciones.py:151-172 | succeeds exactly when N ≥ 2 and the signal is not constant; the result is the excess kurtosis, at least −3 |
| `Histogram.Trunc` | sin_funciones.py:191 | int() truncates toward zero: the result is the integer part of q, on the side of zero |
| `Histogram.Width` | sin_funciones.py:187 | the bin width is zero exactly when min = max; for min < max and n > 0 it is positive and n widths span the range |
| `Histogram.Position` | sin_funciones.py:191 | a sample's offset in bin widths lies in [0, n] and equals n exactly at the maximum |
| `Histogram.BinOf` | sin_funciones.py:191-193 | the clamped bin index of every sample in [min, max] is a valid index 0 ≤ b < n |
| `Histogram.BinOfIffInBin` | sin_funciones.py:190-194 | a sample is counted in bin j if and only if it lies in [lo + j·w, lo + (j+1)·w), the last bin also holding max |
| `Histogram.Counts` | sin_funciones.py:188-194 | one count per bin |
| `Histogram.CountsInBin` | sin_funciones.py:190-194 | the count of bin j is the number of samples lying in bin j |
| `Histogram.CountsTotal` | sin_funciones.py:190-194 | the counts add up to the number of samples: every sample is counted exactly once |
| `Histogram.Centres` | sin_funciones.py:197 | one centre per bin (`range(n_bins)` gives n of them); where they lie is stated by `CentresSpacing` and `CentreInOwnBin` |
| `Histogram.RelFreqs` | sin_funciones.py:198 | each relative frequency times N is its count |
| `Histogram.SumRelFreqs` | sin_funciones.py:198 | the relative frequencies add up to the total count over N |
| `Histogram.FrequenciesSumToOne` | sin_funciones.py:181-198 | the relative frequencies add up to 1 |
| `Histogram.CentreInOwnBin` | sin_funciones.py:197 | every bin centre lies strictly between min and max, and a sample at a centre is counted in that centre's bin |
| `Histogram.CentresSpacing` | sin_funciones.py:197 | for any n ≥ 1, a single bin included, the first centre is half a width above min, and consecutive centres are one width apart |
| `Histogram.HistogramaManual` | sin_funciones.py:175-199 | EmptySequence on no samples; DivisionByZero for n = 0 or a constant signal; IndexOutOfRange for n < 0; otherwise n centres and the relative frequencies of the per-bin counts, which sum to 1 |

## Left out

- Reading the recording (`np.fromfile`, the int16 decoding), windowing,
  printing, the plots and the script that drives the engine. The conversion
  to physical units is kept only as the relation `IsAffine`, in
  `Moments.GainConversion` and the other affine lemmas.
- `captura_DAQ.py` and `con_funciones.py` are not part of this model.
- Floating point. Samples and results are exact reals: rounding,
  accumulated summation error, overflow, NaN and infinities are not
  modelled. In particular, the engine relies on exact arithmetic to never
  meet an offset beyond `n_bins`, which float rounding could produce.
- Statistics.DesvEstandar: `** 0.5` cannot be computed over the reals here.
  The square root is a parameter `root`, required to be the non-negative
  root of the variance whenever N ≥ 2. The method returns it after the
  variance succeeds.
- Statistics.CoefVariacion, Statistics.Asimetria, Statistics.Curtosis: they
  take the same `root` parameter, for the same reason, and pass it to
  `DesvEstandar`.
- Histogram.HistogramaManual: an index outside [0, len) fails with
  IndexOutOfRange. Python would also accept the negative indices
  [-len, -1]. The model omits them because, with a positive bin count and
  min < max, every index is in [0, n) (`Histogram.BinOf`). With a negative
  count the list is empty, so every index fails anyway.
- Histogram.HistogramaManual: `n_bins` is an integer parameter. A
  non-integer bin count (a `TypeError` in `[0] * n_bins`) is not modelled.
  The default `n_bins=60` is the parameter default `nBins := DefaultBins`.
