# AQI scaler of clarityio, modelled in Dafny

The clarityio package fetches air-quality readings from the Clarity data API
and converts raw pollutant concentrations into Air Quality Index (AQI)
values with `scale_raw_to_aqi`. This project models that converter.

The converter owns a fixed breakpoint table. It has seven pollutant keys
(`pm10_24hr`, `pm2.5_24hr`, `carbon_monoxide_8hr`, `sulfur_dioxide_1hr`,
`nitrogen_dioxide_1hr`, `ozone_1hr`, `ozone_8hr`). Each key maps to an ordered
list of tiers `(cutoff, low, high, base)`, taken from the EPA AQI Technical
Assistance Document (September 2018) and the 2024 PM2.5 revision.

For one reading, the checks run in this order:

1. A missing reading (None or NaN) gives a missing result.
2. A negative concentration raises "Negative pollutant values are invalid."
3. A key that is not in the table raises "Unknown pollutant: <key>".
4. Otherwise the tiers are scanned in order. The first tier with
   `value <= cutoff` interpolates the value:
   `(high-base)/(cutoff-low)*(value-low)+base`.
5. A value above every cutoff returns the last tier's `high` and emits a
   `UserWarning` through `warnings.warn`.

A pandas Series is handled before any of these checks: each element is scaled
in order with the same key, and the first element error aborts the whole call.

Modules:

- `Breakpoints` (Breakpoints.dfy): the tier record, the interpolation, the
  first-match scan (`FirstMatch`), the scan with its saturating fallback
  (`ScaleTiers`), and generic lemmas about any well-formed tier list.
- `AqiTable` (AqiTable.dfy): the literal table and proofs of its
  well-formedness.
- `Scaling` (Scaling.dfy): readings, errors, the scalar path, the series path,
  the entry point `Scale`, and the properties of the fixed table, including
  the repository's test scenarios as exact rationals.

The table is written out in AqiTable.dfy, one constant per key, each citing
the dictionary entry in src/clarityio/scaling.py: `Pm10` (lines 29-36),
`Pm25` (37-44), `CarbonMonoxide` (45-52), `SulfurDioxide` (54-61),
`NitrogenDioxide` (62-69), `Ozone1Hr` (70-76), `Ozone8Hr` (77-84), and the map
`Cutoffs` (28-85). What these constants hold is stated by the `AqiTable` lemmas
in the table below.

Concentrations and index values are Dafny `real`. Every table entry is a finite
decimal, so the model computes the exact rational results that the Python
floats approximate. A missing reading is `Reading.Missing`. The warning is a
boolean flag `warned` on each `Index` result.

Where the code and the function's docstring disagree, the model follows the
code:

- The docstring (src/clarityio/scaling.py:7) promises an AQI "of 0-500". The
  code does not confine its results to that range. One-hour ozone has no tier
  below 0.125, so every concentration below 2.186/49 (about 0.0446) scales
  below 0; at 0 the result is -2186/39 (`Ozone1HrBelowZero`,
  `Ozone1HrBelowFirstTier`). Every other non-negative concentration, under
  every key, scales into [0, 500], whether it lies in a tier, in a gap between
  tiers or above the table (`ScaleInRange`).
- The docstring (src/clarityio/scaling.py:16-17) says a `ValueError` is raised
  if the pollutant is unknown. The Series branch runs before the key lookup,
  so an empty or all-missing series under an unknown key succeeds
  (`SeriesOfMissingNeedsNoKey`). A missing single reading under an unknown key
  also succeeds (`MissingPropagates`).
- The docstring (src/clarityio/scaling.py:10) gives 'PM10', 'PM2.5' and
  'carbon_monoxide_8hour' as example pollutants. None of them is a table key,
  so the code rejects all three with "Unknown pollutant"
  (`DocstringExamplesRejected`, an instance of `UnknownRejected`).

Two further facts about the code:

- The scale is not monotone over all concentrations. Each tier's `low` sits
  one reporting step above the previous tier's `cutoff`. A value strictly
  between the two is caught by the next tier and extrapolated below that
  tier's base. For example, eight-hour ozone gives 50 at 0.054 but 48.06 at
  0.0541 (`Ozone8HrGapNotMonotone`). Monotonicity holds whenever the larger
  value lies inside some tier's range or above the whole table, wherever the
  smaller value lies (`ScaleMonotone`).
- A negative value is rejected before the key is looked up, so it fails with
  the negative-value error even under an unknown key (`NegativeRejected`).

## Model

| member | source | states |
|---|---|---|
| Breakpoints.Last | src/clarityio/scaling.py:98 | the saturating tier `cutoffs[pollutant][-1]` is a tier of the list |
| Breakpoints.FirstMatch | src/clarityio/scaling.py:94-95 | the scan's position: every earlier tier's cutoff is below the value, and the tier found (if any) has a cutoff at or above it |
| Breakpoints.ScaleTiers | src/clarityio/scaling.py:94-98 | the scan with fallback: the warning is set exactly when the value exceeds every cutoff, and then the result is the last tier's high; otherwise the result interpolates the first tier whose cutoff reaches the value |
| Breakpoints.Interpolate | src/clarityio/scaling.py:96 | the result lies on the straight line through (low, base) and (cutoff, high): its rise over base, times the tier's width, equals (high - base) times the value's distance from low |
| Breakpoints.InterpolateAtLow | src/clarityio/scaling.py:96 | at a tier's low concentration the formula gives exactly its base |
| Breakpoints.InterpolateAtCutoff | src/clarityio/scaling.py:96 | at a tier's cutoff the formula gives exactly its high index |
| Breakpoints.InterpolateMonotone | src/clarityio/scaling.py:96 | within one tier the formula is non-decreasing in the value, and strictly increasing when high > base |
| Breakpoints.InterpolateBounds | src/clarityio/scaling.py:96 | a value inside a tier's range gives an index in [base, high]; a value below low gives an index below base |
| Breakpoints.TiersIncreasing | src/clarityio/scaling.py:28-85 | in a well-formed list, cutoffs, lows, bases and highs strictly increase along the list |
| Breakpoints.ScaleTiersInTier | src/clarityio/scaling.py:94-96 | the tier selected is the one whose cutoff reaches the value while the previous cutoff does not, i.e. the first with value <= cutoff |
| Breakpoints.ScaleTiersAtCutoff | src/clarityio/scaling.py:94-96 | a value equal to a tier's cutoff returns exactly that tier's high, not the next tier's base |
| Breakpoints.ScaleTiersAtLow | src/clarityio/scaling.py:94-96 | a value equal to a tier's low returns exactly that tier's base |
| Breakpoints.ScaleTiersCovered | src/clarityio/scaling.py:94-96 | a value inside a tier's range is interpolated by that tier and lands in its index range |
| Breakpoints.ScaleTiersInGap | src/clarityio/scaling.py:94-96 | a value in the gap after a tier is extrapolated from the next tier, strictly below that tier's base |
| Breakpoints.ScaleTiersSaturates | src/clarityio/scaling.py:97-98 | the warning is set exactly when the value exceeds the last cutoff, and then the result is the last tier's high |
| Breakpoints.ScaleTiersAtMostCeiling | src/clarityio/scaling.py:94-98 | for every value, in a tier, in a gap, below the first tier or above the table, the result never exceeds the last tier's high |
| Breakpoints.LastIsLargest | src/clarityio/scaling.py:97-98 | in a well-formed list the last tier has the largest cutoff and the largest high |
| Breakpoints.ScaleTiersNonNegative | src/clarityio/scaling.py:94-98 | when every tier after a gap is non-negative at the cutoff before the gap, and the first tier is non-negative at the value, the result is non-negative |
| Breakpoints.ScaleTiersMonotone | src/clarityio/scaling.py:94-98 | for any a <= b with b inside a tier's range or above the table, the index at a never exceeds the index at b |
| AqiTable.CutoffsKeys | src/clarityio/scaling.py:28-85 | the table has exactly the seven pollutant keys |
| AqiTable.ContiguousWellFormed | src/clarityio/scaling.py:28-85 | proper, non-negative tiers that are contiguous at a positive step form a well-formed list |
| AqiTable.CutoffsWellFormed | src/clarityio/scaling.py:28-85 | every key's tiers have cutoff > low and high > base, strictly increasing cutoffs, and are contiguous at the key's resolution (1, 0.1 or 0.001; next base = previous high + 1) |
| AqiTable.CutoffsGapsNonNegative | src/clarityio/scaling.py:28-85 | in every table, each tier after the first is non-negative when evaluated at the previous tier's cutoff, so extrapolation into a gap stays at or above 0 |
| AqiTable.CutoffsCeiling | src/clarityio/scaling.py:35-83 | the last tier's high is 500 for every key except ozone_8hr, whose top tier is absent, where it is 300 |
| AqiTable.CutoffsFloor | src/clarityio/scaling.py:28-85 | every table starts at concentration 0 with index 0, except ozone_1hr, which starts at 0.125 with index 101 |
| Scaling.ScaleReading | src/clarityio/scaling.py:88-98 | missing in gives missing out; a negative value gives NegativeValue; a non-negative value with an unknown key gives UnknownPollutant(key); an index results exactly when the value is non-negative and the key known |
| Scaling.ScaleSeries | src/clarityio/scaling.py:86-87 | success exactly when every element succeeds, with the same length and each element the scalar result; on failure the error is that of the first failing element |
| Scaling.Scale | src/clarityio/scaling.py:86-98 | the output has the input's shape; a series takes the element-wise path before any check, a single reading the scalar path; every error is NegativeValue or UnknownPollutant naming the given key |
| Scaling.MissingPropagates | src/clarityio/scaling.py:88-89 | a missing reading yields a missing result under every key, known or not |
| Scaling.NegativeRejected | src/clarityio/scaling.py:90-91 | a negative value is rejected under every key, known or not |
| Scaling.UnknownRejected | src/clarityio/scaling.py:92-93 | a non-negative value under an absent key fails with an error naming that key |
| Scaling.Message | src/clarityio/scaling.py:91-93 | the negative-value text is the fixed sentence; the unknown-pollutant text is the prefix "Unknown pollutant: " followed by exactly the key |
| Scaling.DocstringExamplesRejected | src/clarityio/scaling.py:10 | the docstring's example names 'PM10', 'PM2.5' and 'carbon_monoxide_8hour' are not table keys and are rejected with an error naming them |
| Scaling.MessageIdentifiesKey | src/clarityio/scaling.py:91-93 | the unknown-pollutant message determines the key, and differs from the negative-value message |
| Scaling.ScaleSelectsTier | src/clarityio/scaling.py:94-96 | over the fixed table, the first tier with value <= cutoff is selected and the result is its interpolation |
| Scaling.ScaleAtCutoff | src/clarityio/scaling.py:94-96 | over the fixed table, a value equal to a cutoff returns exactly that tier's high |
| Scaling.ScaleAtLow | src/clarityio/scaling.py:94-96 | over the fixed table, a value equal to a tier's low returns exactly its base |
| Scaling.ZeroScalesToZero | src/clarityio/scaling.py:96 | 0 scales to 0 for pm10, pm2.5, CO, SO2, NO2 and ozone_8hr |
| Scaling.ScaleCoveredInRange | src/clarityio/scaling.py:94-96 | a value inside a tier's range scales into that tier's index range, hence into [0, 500] |
| Scaling.ScaleInRange | src/clarityio/scaling.py:94-98 | every non-negative value under a known key scales into [0, 500], except ozone_1hr below 2.186/49 |
| Scaling.Ozone1HrBelowZero | src/clarityio/scaling.py:70-72 | ozone_1hr at any value from 0 up to 2.186/49 scales strictly below 0, so the exception in ScaleInRange is exact |
| Scaling.ScaleInGap | src/clarityio/scaling.py:94-96 | a value between two tiers scales strictly below the next tier's base |
| Scaling.MaxConcentration | src/clarityio/scaling.py:97 | the key's largest cutoff: no tier's cutoff exceeds it and some tier's cutoff equals it |
| Scaling.ScaleSaturates | src/clarityio/scaling.py:97-98 | above the largest cutoff the result is 500 (300 for ozone_8hr) with the warning; no other input sets the warning |
| Scaling.ScaleMonotone | src/clarityio/scaling.py:94-98 | for any non-negative a <= b under a known key, with b inside a tier's range or above the table, the index at a never exceeds the index at b; a may lie in a gap or below ozone_1hr's first tier |
| Scaling.Ozone8HrGapNotMonotone | src/clarityio/scaling.py:77-79 | ozone_8hr gives 50 at 0.054 but 48.06 at 0.0541, so the scale is not monotone across gaps |
| Scaling.Ozone1HrBelowFirstTier | src/clarityio/scaling.py:70-72 | ozone_1hr at 0 extrapolates to -2186/39, below zero |
| Scaling.SeriesIsElementwise | src/clarityio/scaling.py:86-87 | a series succeeds exactly when every element does; each output element equals the single-reading result; a failure is the first element's failure |
| Scaling.SeriesFromElements | src/clarityio/scaling.py:86-87 | when every element scales, the series result is exactly the sequence of element results |
| Scaling.SeriesOfMissingNeedsNoKey | src/clarityio/scaling.py:86-89 | an all-missing or empty series succeeds under any key, unknown ones included |
| Scaling.ScenarioPm25 | tests/test_scaling.py:7 | pm2.5_24hr at 18.84 gives 90928/1315 (about 69.1467681) |
| Scaling.ScenarioNitrogenDioxide | tests/test_scaling.py:8 | nitrogen_dioxide_1hr at 300 gives 35910/259 (about 138.6486486) |
| Scaling.ScenarioOffScale | tests/test_scaling.py:28-30 | pm10_24hr at 99999 gives 500 with the warning |
| Scaling.ScenarioErrors | tests/test_scaling.py:16-26 | missing SO2 and ozone_8hr readings give missing; invalid_pollutant at 999 fails naming the key; CO at -0.010 fails as negative |
| Scaling.ScenarioSeriesFirst | tests/test_scaling.py:10-14 | pm2.5_24hr at 5 gives 250/9 |
| Scaling.ScenarioSeriesSecond | tests/test_scaling.py:10-14 | pm2.5_24hr at 9 gives 50 |
| Scaling.ScenarioSeriesThird | tests/test_scaling.py:10-14 | pm2.5_24hr at 30 gives 23654/263 |
| Scaling.ScenarioSeriesFourth | tests/test_scaling.py:10-14 | pm2.5_24hr at 60 gives 35918/233 |
| Scaling.ScenarioSeries | tests/test_scaling.py:10-14 | the series [5, 9, 30, 60] gives [250/9, 50, 23654/263, 35918/233], each within 1e-6 of the expected values |

## Left out

- The HTTP client in src/clarityio/clarityio.py is not part of this model. It
  only does network I/O through `requests`: headers, GET and POST, status
  checks, and printing errors.
- IEEE-754 floating point. The model computes exact rationals. The tests'
  float literals, such as 69.14676806083651, and the Series expectations,
  rounded to six decimals and compared with pandas' default relative
  tolerance, are checked only as bounds around the exact values.
- pandas and numpy specifics: `Series.apply`, `np.isnan`, dtypes, the Series
  index, and nested or non-numeric elements. A Series is a `seq<Reading>`,
  and None and NaN are both `Missing`.
- The text of the off-scale warning. The warning channel is modelled only as
  the `warned` flag on the result.
- Non-numeric input values, which would raise TypeError in Python. The model
  accepts only `Reading` values.
- ScaleMonotone: stated whenever the larger value lies in a tier's range or
  above the table, not for all concentrations. A larger value in a gap between
  tiers can scale below a smaller one (see Ozone8HrGapNotMonotone), so the
  unrestricted claim is false.
