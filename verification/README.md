# REU estimator — a Dafny model

This project models `reu` from `quantpy/quantpy/reu.py`. The function computes the
Relative Expanded Uncertainty (REU) of a secondary instrument (a low-cost sensor,
"LCS") against a reference instrument. It works in five steps:

1. **Masking** (`Masking`): every position where either series has no reading (NaN) is
   dropped. The surviving pairs stay aligned and keep their input order.
2. **Fit** (`Regression`): an ordinary-least-squares line `lcs = b0 + b1 * ref` over the
   kept pairs. The slope is `Sxy / Sxx` over centred sums and the line passes through
   the centroid. This is the closed form of `scipy.stats.linregress`, which `reu` calls
   at `reu.py:63`.
3. **Residual variance** (`Regression`): `rss / (n - 2)`.
4. **Deviation from the 1:1 line** (`Uncertainty`): `ec = (b0 + (b1 - 1) * ref)^2`,
   computed per sample.
5. **Combination** (`Uncertainty`, `ReuEstimator`): `k * sqrt(sigma2 - u_xi^2 + ec) * 100 / lcs`,
   computed per sample.

Modelling choices:

- Numbers are Dafny `real`s.
- A reading is `Option<real>`, where `None` is NaN.
- An entry of the result is `None` wherever the floating-point code yields NaN or an
  infinity:
  - the radicand is negative;
  - the secondary reading is zero;
  - there are only two kept pairs (`rss / 0`);
  - there is a single kept pair (`scipy.stats.linregress` returns a NaN slope).
- The square root is a parameter `sqrt: real -> real`. Every property that depends on
  it assumes only `Uncertainty.IsSqrt`: the root is non-negative and squares back on
  the non-negative reals.
- The whole call fails with an `Error` where the Python code raises:
  - `ShapeMismatch`: the series have different lengths;
  - `EmptySample`: no pair survives the mask;
  - `ConstantReference`: two or more kept pairs whose reference readings are all equal,
    so that no line can be fitted.

What is proved:

- The result has one entry per kept pair, in input order.
- The fit is the least-squares line: it satisfies the normal equations, it has the
  smallest residual sum of squares of all lines, and it recovers any line that fits
  exactly.
- For `n >= 2` the residual variance is undefined exactly when `n = 2`, and otherwise
  non-negative.
- `ec` is non-negative, and it is zero exactly where the fitted line meets the 1:1 line.
- Perfect agreement (`lcs = ref` at every kept pair, more than two kept pairs, reference
  readings not all equal, `u_xi = 0`) gives the line `b0 = 0`, `b1 = 1` and zero `rss`.
  Every estimate is then 0, except where `lcs = 0`, where it is undefined.
- The estimate is linear in `k`.
- For `k >= 0`, a defined estimate whose secondary reading is positive is non-negative.
  For `k >= 0` and a positive secondary reading, an estimate defined at a larger
  `|u_xi|` is also defined at the smaller one, and is at most the estimate at the
  smaller one.
- For `k > 0` and a non-zero secondary reading, a strictly larger `|u_xi|` strictly
  shrinks the magnitude of a defined estimate. With a positive reading the estimate
  falls; with a negative reading it rises towards 0.
- A worked example is proved end to end (`ReuExample`).

## Model

| member | source | states |
|---|---|---|
| Masking.KeptIndices | quantpy/quantpy/reu.py:55-57 | a position is listed iff both readings there are present; the positions are strictly increasing (input order) |
| Masking.Filter | quantpy/quantpy/reu.py:55-57 | one sample per kept position, entry `j` pairs `ref[i]` with `lcs[i]` for the `j`-th kept position `i` |
| Masking.KeptAll | quantpy/quantpy/reu.py:55 | with no missing reading every position is kept, `j`-th kept position is `j` |
| Masking.FilterKeepsComplete | quantpy/quantpy/reu.py:55-57 | with no missing reading the mask drops nothing and reorders nothing |
| Regression.SqDev | quantpy/quantpy/reu.py:63 | `Sxx` is never negative |
| Regression.SqDevZeroIffConstant | quantpy/quantpy/reu.py:63 | `Sxx` about the mean is zero exactly when all reference readings are equal |
| Regression.SqDevPositive | quantpy/quantpy/reu.py:63 | non-constant reference readings imply at least two samples and a strictly positive `Sxx`, so the slope `Sxy / Sxx` is defined |
| Regression.OlsFit | quantpy/quantpy/reu.py:63 | the closed form of `scipy.stats.linregress` for non-constant reference readings: at least two samples, and the line passes through the centroid `(mean ref, mean lcs)`; `OlsNormalEquations` and `OlsMinimisesRss` characterise it as the least-squares line |
| Regression.CentroidResidualSum | quantpy/quantpy/reu.py:63 | residuals of any line through the centroid sum to zero |
| Regression.CentroidResidualMoment | quantpy/quantpy/reu.py:63 | the reference-weighted residual sum of a centroid line of slope `b1` is `Sxy - b1 * Sxx` plus the mean reference times the residual sum |
| Regression.OlsNormalEquations | quantpy/quantpy/reu.py:63 | the fitted line satisfies both normal equations of least squares |
| Regression.Rss | quantpy/quantpy/reu.py:66 | the residual sum of squares is never negative |
| Regression.RssShift | quantpy/quantpy/reu.py:66 | the residual sum of squares of a line `a` is that of line `b` plus cross terms with `b`'s residuals plus the sum of the squared difference line |
| Regression.OlsMinimisesRss | quantpy/quantpy/reu.py:63 | the fit has the smallest residual sum of squares of all lines, strictly smaller than every other line's |
| Regression.OlsRecoversExactLine | quantpy/quantpy/reu.py:63 | if some line has zero residual at every sample, the fit is that line and its residual sum of squares is zero |
| Regression.TwoSamplesFitExactly | quantpy/quantpy/reu.py:66 | with two samples of distinct reference readings the fit passes through both (`rss = 0`) |
| Regression.ResidualVariance | quantpy/quantpy/reu.py:66-67 | undefined iff `n = 2`; otherwise non-negative and `sigma2 * (n - 2) = rss` |
| Uncertainty.SqrtMonotone | quantpy/quantpy/reu.py:73 | the root is increasing on the non-negative reals |
| Uncertainty.SqrtStrictlyMonotone | quantpy/quantpy/reu.py:73 | the root is strictly increasing on the non-negative reals |
| Uncertainty.SqrtZeroIff | quantpy/quantpy/reu.py:73 | the root of a non-negative number is zero iff the number is |
| Uncertainty.SqrtOfSquare | quantpy/quantpy/reu.py:73 | the root of `a * a` is `a` for non-negative `a` |
| Uncertainty.Gap | quantpy/quantpy/reu.py:70 | `b0 + (b1 - 1) * x` is the fitted value minus the 1:1 value at `x` |
| Uncertainty.IdentityDeviation | quantpy/quantpy/reu.py:70 | `ec >= 0`, and `ec = 0` iff `b0 + (b1 - 1) * ref = 0` |
| Uncertainty.RadicandDecreasesInUxi | quantpy/quantpy/reu.py:73 | the radicand decreases (strictly, when `|u_xi|` strictly grows) as `|u_xi|` grows |
| Uncertainty.SampleReu | quantpy/quantpy/reu.py:73 | defined iff radicand `>= 0` and `lcs != 0`; then `estimate * lcs = k * sqrt(radicand) * 100` |
| Uncertainty.SampleReuLinearInK | quantpy/quantpy/reu.py:73 | scaling `k` by `c` scales a defined estimate by `c` and keeps an undefined one undefined |
| Uncertainty.SampleReuNonNegative | quantpy/quantpy/reu.py:73 | for `k >= 0` and `lcs > 0` a defined estimate is non-negative |
| Uncertainty.SampleReuMonotoneInUxi | quantpy/quantpy/reu.py:73 | for `k >= 0`, `lcs > 0`, while the radicand stays non-negative, a larger `|u_xi|` never raises the estimate and both are defined |
| Uncertainty.SampleReuStrictlyMonotoneInUxi | quantpy/quantpy/reu.py:73 | for `k > 0` and `lcs != 0`, while the radicand at the larger `|u_xi|` is non-negative, both estimates are defined and the larger `|u_xi|` gives a strictly smaller magnitude: a lower estimate for `lcs > 0`, a higher one (still `<= 0`) for `lcs < 0` |
| Uncertainty.SampleReuZero | quantpy/quantpy/reu.py:73 | with no residual variance, no reference uncertainty and no deviation the estimate is 0, or undefined when `lcs = 0` |
| ReuEstimator.SampleEstimate | quantpy/quantpy/reu.py:67-73 | the estimate of one kept sample is defined iff the residual variance is defined, the radicand `sigma2 - u_xi^2 + ec` is non-negative and `lcs != 0`; then `estimate * lcs = k * sqrt(radicand) * 100` (as `SampleReu`) |
| ReuEstimator.Reu | quantpy/quantpy/reu.py:13-74 | fails with a shape mismatch iff the lengths differ, with an empty sample iff nothing is kept, with a constant reference iff two or more pairs are kept and their reference readings are all equal; on success one entry per kept pair |
| ReuEstimator.Estimates | quantpy/quantpy/reu.py:63-73 | one estimate per kept sample |
| ReuEstimator.ReuUnfitted | quantpy/quantpy/reu.py:55-63 | when no line is fitted the outcome does not depend on `u_xi`, `k` or the root |
| ReuEstimator.ReuEntries | quantpy/quantpy/reu.py:55-73 | entry `j` is the estimate of the `j`-th kept input pair, from the fit and residual variance over all kept pairs |
| ReuEstimator.ReuSingleSample | quantpy/quantpy/reu.py:60-63 | one kept pair gives a single undefined entry |
| ReuEstimator.ReuTwoSamples | quantpy/quantpy/reu.py:66-67 | two kept pairs give `rss = 0` and two undefined entries |
| ReuEstimator.EstimatesPerfectAgreement | quantpy/quantpy/reu.py:63-73 | `lcs = ref` on more than two samples gives `b0 = 0`, `b1 = 1`, `rss = 0` and, with `u_xi = 0`, estimate 0 (undefined where `lcs = 0`) |
| ReuEstimator.ReuPerfectAgreement | quantpy/quantpy/reu.py:55-73 | the same for the whole estimator, over the kept pairs of the input series |
| ReuEstimator.EstimatesLinearInK | quantpy/quantpy/reu.py:73 | scaling `k` by `c` scales every estimate by `c` |
| ReuEstimator.ReuLinearInK | quantpy/quantpy/reu.py:73 | scaling `k` by `c` leaves a failure unchanged, keeps success and length, and scales every defined entry by `c` |
| ReuEstimator.EstimatesMonotoneInUxi | quantpy/quantpy/reu.py:73 | for `k >= 0`, an estimate defined at the larger `|u_xi|` with `lcs > 0` is non-negative, defined at the smaller one, and no larger |
| ReuEstimator.ReuMonotoneInUxi | quantpy/quantpy/reu.py:73 | the same for the whole estimator; the outcome kind and the length do not depend on `u_xi` |
| ReuEstimator.EstimatesStrictlyMonotoneInUxi | quantpy/quantpy/reu.py:73 | for `k > 0` and `u1^2 < u2^2`, every estimate defined at `u2` is defined at `u1` and strictly smaller in magnitude; it is strictly lower at `u2` where `lcs > 0` and strictly higher where `lcs < 0` |
| ReuEstimator.ReuStrictlyMonotoneInUxi | quantpy/quantpy/reu.py:73 | the same for the whole estimator, over the kept pairs; the outcome kind and the length do not depend on `u_xi` |
| ReuEstimator.ExampleKept | quantpy/quantpy/reu.py:55-57 | four pairs with one missing reference reading keep positions 0, 2, 3 |
| ReuEstimator.ExampleMasking | quantpy/quantpy/reu.py:55-57 | the kept samples of that example, in order |
| ReuEstimator.ExampleEstimates | quantpy/quantpy/reu.py:63-73 | pairs on `lcs = 0.5 + ref` fit `b0 = 0.5`, `b1 = 1`, and with `k = 2`, `u_xi = 0` give `100 / lcs` per sample |
| ReuEstimator.ReuExample | quantpy/quantpy/reu.py:13-74 | the example end to end: three entries for four input pairs |

## Left out

- `quantpy/quantpy/plots.py` (plotting only) and `quantpy/setup.py` (packaging) are not part of this model.
- IEEE-754 arithmetic: rounding and overflow are not modelled. Each NaN or infinity the code would produce is a `None` entry. Infinite readings are not representable: `np.isnan` at `reu.py:55` keeps ±inf readings, but a `Reading` is either a real number or missing.
- The square root is a parameter constrained by `IsSqrt`, not a definition.
- The internals of `scipy.stats.linregress` (called at `reu.py:63`) are not modelled. Its correlation, p-value and standard error are discarded by `reu`. scipy is not part of this model; its behaviour is taken from its documentation. It refuses empty input. It refuses input of two or more readings whose reference values are all equal. It returns a NaN slope for a single reading.
- Inputs of different lengths fail with `ShapeMismatch`. This is numpy's outcome for plain arrays: `reu.py:55-57` raise: the `&` at `reu.py:55` raises first on arrays of unequal lengths that cannot broadcast, and when one length is 1 the `&` broadcasts and `ref[mask]` or `lcs[mask]` raises on a boolean mask of the other length.
- pandas index alignment is not modelled. With pandas Series, the input type `reu`'s docstring uses (`reu.py:52`), the `&` at `reu.py:55` aligns inputs of unequal length on their index labels and fills missing labels with False. Both inputs are then cut to the common labels, and no error is raised. This follows from pandas' documented semantics.
- pandas and numpy dtypes are not modelled.
- The default values `u_xi = 0.0` and `k = 2` are not modelled: both are ordinary parameters of `Reu`.
- `n <= 2` is not reported as an explicit "insufficient data" error. The code propagates NaN for `n = 1` and `n = 2`, and the model follows the code: these give undefined entries, not a failure.
- `n = 0` and a constant reference fail the whole call, because `scipy.stats.linregress` raises there.
- ReuEstimator.EstimatesPerfectAgreement: an estimate is undefined, not 0, where a reading is 0, because `reu.py:73` divides `0 * 100` by `lcs = 0`.
