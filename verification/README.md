# Sieve analysis and USCS classification — a Dafny model

This project models the calculation core of a one-page soil-mechanics form.
The form takes a sieve analysis on a fixed series of 21 sieves, from 3″ down to the pan ("FONDO").
Each sieve row holds either a partial weight or a typed cumulative-passing percentage.
From these the form derives retained, cumulative-retained and passing percentages per sieve.
It then reads the passing percentages at the No. 4 and No. 200 sieves.
Finally it classifies the soil under the Unified Soil Classification System (USCS, ASTM D2487).
That step also uses the optional uniformity and curvature coefficients (Cu, Cc) and the Atterberg limits (LL, LP).

Modules, one per component:

- `Percent`: a table cell is `Num(v)` or `NaN`. `Round2` is two-decimal rounding, half to even, on exact reals.
- `Series`: the column operations the calculation is written in. These are a sum and a running sum that skip NaN, forward fill, fill with a default, a one-row shift, elementwise arithmetic and rounding. Each is related to a closed description: prefix sums, and the last numeric cell so far.
- `Sieves`: the 21 designations in table order.
- `Gradation`: the mode choice and the two ways of computing the table.
  - Weight mode is used when the weights sum to more than 0.
  - Passing mode is used otherwise, when any passing cell is filled in.
  - Otherwise there is no table.
- `Readings`: the passing percentage of the last row labelled "N 4" or "N 200", and 100 minus it.
- `Plasticity`: the plasticity-chart class NP/CL/CH/ML/MH. It comes from the A-line test IP ≥ 0.73 (LL − 20).
- `Uscs`: the classification string, built exactly as the program builds it. Missing inputs give "Requiere LL y LP" / "Requiere Cu y Cc" placeholders.
- `Pipeline`: input table to classification string.

The model follows the code, including where it departs from the standard or from its own stated intent:

- The fine-soil branch names a clay when IP is at or below the A-line. The chart step names a clay at or above it (see Findings).
- The well-graded test uses Cu > 4 (gravel) and Cu > 6 (sand). ASTM D2487 uses ≥. `Uscs.WellGradedAgainstStandard` shows that the two tests differ only at Cu = 4 or Cu = 6.
- A blank weight leaves NaN in its row. The running sum skips that row.
  - A NaN at No. 200 fails the `< 50` test, so the soil is classed as fine.
  - A NaN at No. 4 gives sand.
- In weight mode the pan row is meant to pass 0 %, but each retained percentage is rounded before summing. So the pan row's passing percentage drifts by up to 0.005 per row, and it can go below zero (`Gradation.PanCanPassBelowZero`: −0.01 %).
- Passing never increases down the series in weight mode when no weight is negative. In passing mode, typed entries that never increase and are at most 100 are a sufficient condition for the same (`Gradation.ByPassingMonotone`). Otherwise passing can increase: a blank first row passes 100 and a second row entered as 150 passes 150 (`Gradation.PassingCanIncrease`).

## Model

| member | source | states |
|---|---|---|
| Percent.Round2 | pruebapre.py:31-33 | the result is a whole number of hundredths within half a hundredth of the input, leaves two-decimal values unchanged, and breaks ties to the even hundredth |
| Percent.Round2Monotone | pruebapre.py:31-33 | rounding to two decimals never reverses the order of two values |
| Percent.RoundPct | pruebapre.py:31-33 | a rounded cell is NaN exactly when the cell is, and otherwise a whole number of hundredths within half a hundredth of the cell's value |
| Series.CumSum | pruebapre.py:32 | the running sum is NaN exactly where the column is NaN; its value elsewhere is given by Series.CumSumIsPrefixSum |
| Series.CumSumIsPrefixSum | pruebapre.py:32 | the running sum is NaN where the column is NaN, and elsewhere the sum of the numeric cells from the top through that row, NaN cells skipped |
| Series.LastNum | pruebapre.py:40 | the index found is the last numeric cell at or before the row, and none is found only when every cell up to the row is NaN |
| Series.FFill | pruebapre.py:40 | forward fill puts into each cell the last numeric cell at or before it, and leaves NaN above the first number |
| Series.FillNa | pruebapre.py:40 | every cell of the result is a number: numeric cells are kept and NaN cells take the default |
| Series.FilledAt | pruebapre.py:39-40 | rounding, forward fill, filling with a default and rounding again give each row the rounded last numeric cell at or above it, or the rounded default when there is none |
| Series.Shift | pruebapre.py:41 | the shifted column has the fill value in the first row and the cell above in every other row |
| Series.RoundedDropAt | pruebapre.py:41 | on a numeric column of whole hundredths, the rounded difference between the shifted column and the column is exactly the drop from the cell above, the fill value above the first row |
| Series.RoundedCumSumAt | pruebapre.py:32 | on a column of whole hundredths, rounding the running sum moves nothing: it is NaN on NaN cells and the plain prefix sum elsewhere |
| Series.RoundedComplementAt | pruebapre.py:33 | on a cell of whole hundredths, the rounded complement is exactly 100 minus the cell |
| Series.SumOfDrops | pruebapre.py:41 | when each cell is the drop of another column from the cell above (100 above the first), the first k cells add up to 100 minus that column's k-th value |
| Series.RoundedCumSumOfDrops | pruebapre.py:41 | the rounded running sum of such drops, when they are whole hundredths, is exactly 100 minus the column |
| Series.SumPercentage | pruebapre.py:31 | the percentages of the parts of a total sum to the parts' sum over the total, times 100 |
| Series.SumRoundError | pruebapre.py:31-32 | rounding every cell moves the sum of a column by at most half a hundredth per cell |
| Series.SumPositive | pruebapre.py:27 | a column of non-negative numbers sums to a total that is positive exactly when some cell is positive |
| Sieves.StandardLayout | pruebapre.py:15-18 | the series has 21 distinct designations, with No. 4 at row 9, No. 200 at row 19 and the pan last |
| Gradation.Weights | pruebapre.py:27 | the weight column holds a number exactly on the rows with a weight, and that number is the weight entered |
| Gradation.TotalWeight | pruebapre.py:27 | the total weight is 0 when no weight is given and never negative when no weight is negative |
| Gradation.TotalWeightPositive | pruebapre.py:27-29 | with no negative weight the total is positive exactly when some row has a positive weight, so weight mode is chosen exactly then |
| Gradation.Coerce | pruebapre.py:39 | a passing entry becomes a number exactly when it is numeric, and then keeps its value; text and blanks become NaN |
| Gradation.Compute | pruebapre.py:27-46 | weight mode is chosen exactly when the weights sum to more than 0; passing mode exactly when they do not and some passing cell holds anything; otherwise there is no table; rows keep the input's designations and order |
| Gradation.ByWeightRows | pruebapre.py:29-33 | in weight mode a row keeps its designation; its retained percentage is its weight's share of the total, times 100 and rounded; its cumulative percentage equals the plain running sum of the rounded retained percentages and passing is its exact complement to 100; a row without a weight is NaN throughout |
| Gradation.ByWeightComplement | pruebapre.py:31-33 | in weight mode passing plus cumulative is exactly 100 on every row with a weight |
| Gradation.ByWeightRetainedNonNegative | pruebapre.py:31 | a non-negative weight never gives a negative retained percentage |
| Gradation.ByWeightMonotone | pruebapre.py:31-33 | with no negative weight, cumulative never decreases and passing never increases down the series |
| Gradation.ByWeightPanDrift | pruebapre.py:31-33 | with the pan row weighed, the pan row's passing percentage is within 0.005 per row of 0 |
| Gradation.PanExampleRetained | pruebapre.py:31 | weights 33.336, 33.336 and 33.328 g total 100 g and retain 33.34, 33.34 and 33.33 % |
| Gradation.PanCanPassBelowZero | pruebapre.py:31-33 | weights 33.336, 33.336 and 33.328 g make the pan row pass −0.01 % |
| Gradation.FilledPassing | pruebapre.py:39-40 | the filled passing column is numeric and in whole hundredths; each row holds the rounded last numeric entry at or above it, or 100 when there is none |
| Gradation.ByPassingRows | pruebapre.py:38-42 | in passing mode every row keeps its designation and passes the filled entry, a number; its retained and cumulative columns are given by Gradation.ByPassingRowFacts and Gradation.ByPassingDrops |
| Gradation.ByPassingFill | pruebapre.py:39-40 | in passing mode a row passes the rounded value of the last numeric entry at or above it, and 100 when there is none |
| Gradation.ByPassingKeepsEntries | pruebapre.py:39-40 | a row with a numeric entry passes that entry rounded to two decimals |
| Gradation.ByPassingRowFacts | pruebapre.py:40-42 | in passing mode retained is exactly the drop in passing from the row above (100 above the first row), and cumulative is exactly the running sum of 100 minus passing |
| Gradation.ByPassingDrops | pruebapre.py:40-41 | in passing mode the whole retained column is the drop of the passing column from the row above, 100 above the first |
| Gradation.ByPassingTelescopes | pruebapre.py:41 | the retained percentages of the first k rows add up to 100 minus the passing percentage of row k−1 |
| Gradation.ByPassingMonotone | pruebapre.py:39-41 | with numeric entries at most 100 that never increase, passing never increases and retained is never negative |
| Gradation.PassingCanIncrease | pruebapre.py:39-41 | without monotone entries passing can increase: a blank first row passes 100 and a second row entered as 150 passes 150 |
| Gradation.CumulativeOvercounts | pruebapre.py:42 | entries 90 and 80 give a cumulative retained of 30 % at the second row, so passing plus cumulative is not 100 there |
| Gradation.CorrectedCumulativeAt | pruebapre.py:41-42 | the running sum of passing mode's retained column is exactly 100 minus passing on every row |
| Gradation.ByPassingRowsCorrected | pruebapre.py:42 | with cumulative taken as the running sum of retained, passing plus cumulative is exactly 100 on every row, and the retained and passing columns are unchanged |
| Gradation.ComputeCorrected | pruebapre.py:27-46 | the corrected table has the same mode, designations and passing column as the original, and passing plus cumulative is 100 on every row with a number |
| Gradation.ModesAgree | pruebapre.py:29-42 | typing weight mode's passing percentages into a table without usable weights reproduces the same passing column in passing mode |
| Readings.LastIndexOf | pruebapre.py:51-52 | the index found carries the designation and no later row does; none is found only when no row carries it |
| Readings.Reading | pruebapre.py:51-52 | a reading is absent exactly when no row carries the designation, and otherwise it is the passing value of the last row that does |
| Readings.ReadingIsLast | pruebapre.py:51-52 | the reading is a given value exactly when that value is passed by the last row carrying the designation |
| Readings.RetainedFrom | pruebapre.py:53-54 | the retained reading exists exactly when the passing reading does, is NaN exactly when it is, and adds to it to 100 |
| Readings.ReadingsOf | pruebapre.py:51-54 | on a table, each passing reading exists exactly when some row carries "N 4" (resp. "N 200") and is the passing value of the last such row; each retained reading exists exactly when its passing reading does, is NaN exactly when it is, and adds to it to 100; there are no readings without a table |
| Readings.ReadingsSamePassing | pruebapre.py:51-52 | tables with the same designations and passing columns have the same readings |
| Readings.StandardRowReadings | pruebapre.py:51-52 | rows laid out on the standard series read No. 4 at row 9 and No. 200 at row 19 |
| Readings.StandardReadings | pruebapre.py:51-52 | on the standard series both readings exist in every computed table: row 9's and row 19's passing |
| Plasticity.Symbol | pruebapre.py:130-143 | the symbol starts with C exactly for clays and M exactly for silts, ends in H exactly for high plasticity and in L exactly for low-plasticity clays and silts, and is "NP" only for NP |
| Plasticity.Classify | pruebapre.py:123-143 | a class exists exactly when both limits are given; clay exactly when LL ≥ 20 and IP ≥ 0.73 (LL − 20); silt exactly when LL ≥ 20, IP is below the A-line and positive; NP exactly when LL < 20 or IP is below the line and not positive; high plasticity exactly for plastic classes with LL ≥ 50 |
| Plasticity.ChartExamples | pruebapre.py:130-143 | LL = 30, LP = 10 is CL; LL = 19 is NP whatever LP; LL = 60, LP = 50 is MH |
| Uscs.KindOf | pruebapre.py:226-230 | gravel exactly when the No. 4 reading is a number and the gravel fraction (retained on No. 4) exceeds the sand fraction (between No. 4 and No. 200) |
| Uscs.WellGradedAgainstStandard | pruebapre.py:239-240 | the program's well-graded test implies ASTM D2487's and misses it only at Cu = 4 (gravel) or Cu = 6 (sand) |
| Uscs.Grading | pruebapre.py:238-245 | "W" exactly when Cu and Cc are given and pass the test, "P" exactly when given and failing, the Cu/Cc placeholder exactly when one is missing |
| Uscs.FinesPart | pruebapre.py:247-250 | the chart symbol when there is a class, and the LL/LP placeholder exactly when there is none |
| Uscs.FineSymbol | pruebapre.py:208-221 | the placeholder exactly when a limit is missing; otherwise CH, MH, CL or ML, with C exactly when IP ≤ 0.73 (LL − 20) and H exactly when LL ≥ 50 |
| Uscs.Classify | pruebapre.py:196-268 | the string is empty exactly when a reading is missing, and begins "FINO - " exactly when the No. 200 reading is not below 50 |
| Uscs.FineSoil | pruebapre.py:200-221 | fine soil gives "FINO - " and the placeholder exactly when a limit is missing, otherwise a two-letter symbol, C or M then H or L, whose C and H follow the A-line and LL = 50 tests; Cu, Cc and the No. 4 value play no part |
| Uscs.CleanCoarse | pruebapre.py:223-245 | coarse soil under 5 % fines gives the kind and "W", "P" or the Cu/Cc placeholder, each exactly under its condition; the limits play no part |
| Uscs.DirtyCoarse | pruebapre.py:223-250 | coarse soil with 12 % fines or more gives the kind and the chart symbol, or the LL/LP placeholder exactly when there is no class; Cu and Cc play no part |
| Uscs.DualCoarse | pruebapre.py:251-268 | coarse soil with 5 % to 12 % fines gives the kind, the grading part, "-" and the fines part, each with its placeholder exactly when its inputs are missing |
| Uscs.FineExample | pruebapre.py:200-221 | 60 % passing No. 200 with LL = 40, LP = 15 gives "FINO - ML" |
| Uscs.CleanGravelExample | pruebapre.py:226-245 | 40 % passing No. 4 and 3 % passing No. 200 with Cu = 5, Cc = 2 give "GRAVA - W"; Cu = 4 gives "GRAVA - P" |
| Uscs.DualSandExample | pruebapre.py:226-268 | 70 % passing No. 4 and 8 % passing No. 200 with nothing else gives "ARENA - Requiere Cu y Cc-Requiere LL y LP" |
| Uscs.FineBranchContradictsChart | pruebapre.py:210-219 | off the A-line with LL ≥ 20, the fine-soil branch names silt where the chart names clay and clay where it names silt; LL = 40, LP = 15 is CL on the chart and "FINO - ML" in the classification |
| Uscs.FineSymbolCorrected | pruebapre.py:210-219 | with the A-line test the right way round, the fine-soil symbol equals the chart class wherever that class is plastic |
| Uscs.ClassifyCorrected | pruebapre.py:196-268 | the corrected classification is empty exactly when a reading is missing, equals the original for coarse soils, and names the chart class for fine soils with plastic fines |
| Pipeline.Sucs | pruebapre.py:196-198 | the classification is empty exactly when there is no table or no "N 4" or "N 200" row; on the standard series, exactly when the weights do not sum to more than 0 and no passing cell is filled in |
| Pipeline.SucsCorrected | pruebapre.py:196-268 | the corrected classification is empty exactly when the original is |
| Pipeline.CorrectionKeepsReadings | pruebapre.py:42 | correcting the cumulative column leaves the No. 4 and No. 200 readings unchanged |
| Pipeline.ModesAgreeOnClassification | pruebapre.py:27-54 | typing weight mode's passing percentages into a table without usable weights gives the same readings and the same classification |
| Pipeline.TwoEntryTable | pruebapre.py:15-21 | the example table lies on the standard series |
| Pipeline.TwoEntryExample | pruebapre.py:36-54 | on the standard series, 40 % entered at No. 4 and 3 % at No. 200 with Cu = 5, Cc = 2 classify as "GRAVA - W" |

## Findings

| source | as written | input that shows it | evidently intended | confidence | as-written member | corrected member |
|---|---|---|---|---|---|---|
| pruebapre.py:210-219 | fine soils are CH/CL when IP ≤ 0.73 (LL − 20), on or below the A-line | LL = 40, LP = 15 with 60 % passing No. 200 gives "FINO - ML", but the chart step (:132-134) classes the same point CL | clay on or above the A-line (IP ≥ 0.73 (LL − 20)), as the chart step does | high; not executed | Uscs.FineBranchContradictsChart | Uscs.FineSymbolCorrected |
| pruebapre.py:42 | passing mode's cumulative retained is the running sum of 100 − passing | entries 90 and 80 on two rows give 30 % cumulative retained at the second row, though only 20 % is retained above its sieve | the running sum of the retained percentages, i.e. 100 − passing, as weight mode computes it (:32) | high; not executed | Gradation.CumulativeOvercounts | Gradation.ByPassingRowsCorrected |

The corrected members are used by `Gradation.ComputeCorrected`, `Uscs.ClassifyCorrected` and `Pipeline.SucsCorrected`.
`Pipeline.CorrectionKeepsReadings` shows that the cumulative-column fix cannot change a classification, because the readings come from the passing column.

## Left out

- Page layout, widgets, tables, messages and warnings (pruebapre.py:8-12, 22, 25, 34, 43, 46, 49, 55-64, 112-113, 126-128, 145-149, 194, 270-271): these are presentation only. The classification string is the model's output.
- The input widgets for Cu, Cc, LL and LP (pruebapre.py:114-117) become the `Option<real>` parameters of the classification; an empty field is `None`.
- The proportion diagram and the plasticity chart (pruebapre.py:66-106, 151-191): they only draw the computed values.
- Floating point: percentages and limits are exact reals. Rounding is half to even on the exact value, with no binary representation error, so results at exact ties and on the A-line can differ from the program's floats.
- Column data types: weights are numbers or empty. Text typed into the weight column is not modelled. Text in the passing column is modelled as a non-numeric entry, which coerces to NaN.
- The no-input branch (pruebapre.py:45): it builds a table without a passing column, and the lookup at line 51 would then fail. The model returns "no table" and no readings, so the classification is empty.
- The non-negative minimum of the four numeric fields (pruebapre.py:114-117) is not imposed: every function is total over all reals.
- Gradation.ByWeightMonotone: assumes no negative weight, which the input table does not enforce.
- Gradation.ByPassingMonotone: assumes typed entries that never increase and are at most 100, which the input table does not enforce.
- Re-running the calculation on unchanged input gives the same output: every member is a pure function, so no separate statement is made.
