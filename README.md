# BetterGraphs numeric core in Dafny

BetterGraphs plots one column of a small table against another column. It can
fit a linear or quadratic regression and solve the fitted curve for a
prediction. This project models the numeric engine behind that and the store
operations that feed it:

- the domain and display-transform utilities (`src/utils/transforms.ts`);
- the regression engine (`src/utils/regression.ts`): closed-form linear least
  squares, with and without an intercept, and quadratic least squares through
  the 3×3 Gaussian elimination with partial pivoting `solve3`;
- the data set store (`src/state/store.ts`): a class named `Store` whose fields are
  `table`, `plot`, `regression`, `prediction` and `view`. Its methods are the
  table edits, `setDomains`, `numericPairs`, `recomputeRegression` and
  `fitNicely`;
- the chart's arithmetic (`src/components/ChartCanvas.tsx`):
  - the `pairsRaw` scan;
  - the predicted point, including the quadratic inverse;
  - the wheel zoom, the drag pan and the double-click reset;
- locale-aware number parsing (`src/utils/number.ts`).

The modules follow the program's structure:

| module | models |
|---|---|
| `Numbers`, `Wrappers` | JavaScript numbers: `Fin(r)`, `PosInf`, `NegInf` and `NaN`, with the operations the inverse solver needs |
| `Types` | the records of `src/types.ts` and of the store |
| `Seqs` | `Array.prototype.filter` |
| `Transforms` | `dropNaNFinite`, `autoDomain`, `hasVariance`, `applyDisplayTransforms` and `estimateScreenSlope` |
| `Regression`, `RegressionProperties` | `computeLinearRegression`, `computeRegression`, and what their results mean |
| `Elimination`, `EliminationProperties` | `solve3` as a function on values, and its correctness |
| `Solver` | `solve3` as written: the copied rows in arrays, swapped and eliminated in place, then back substitution; proved equal to the function |
| `QuadraticRegression`, `QuadraticProperties` | `computeQuadraticRegression` |
| `Prediction` | forward evaluation and the linear and quadratic inverses of the prediction point |
| `Pairs` | the finite-pair scans `numericPairs` and `pairsRaw` |
| `TableOps` | the record updates behind the table edits |
| `Fitting` | what `fitNicely` computes, and the domains it produces |
| `DatasetStore` | the store class and `recomputeRegression` |
| `Chart` | the chart's prediction, its shown domains, and zoom, pan and reset |

Arithmetic is over exact reals. A regression input is a list of exact points.
The coefficients a fit returns are `Num`, so the `NaN` sentinels of degenerate
inputs are explicit.

Some JavaScript built-ins are function-typed parameters:

- `Math.sqrt` comes with `SqrtLaw`: for `d ≥ 0`, `sqrt(d) ≥ 0` and `sqrt(d)² = d`.
- `Math.exp` comes with `ExpLaw`: `exp(0) = 1`, always positive, below 1 for negative arguments and above 1 for positive ones, and `exp(s) · exp(t) = 1` whenever `s + t = 0`.
- `Math.log10` comes with no law.
- `Number(...)`, the string-to-number conversion in `parseNumeric`, returns a `Num`.

Both quirks of the quadratic inverse (`ChartCanvas.tsx:84-85`, `store.ts:231-232`) are kept as written.

- The second candidate `C / (A r1) * -1` is the negation of the co-root. `MirroredIsNegatedRoot` states this.
- With `B = 0` the stable root is `0`, because `Math.sign(0) = 0`:
  - For `C ≠ 0` the second candidate is infinite, so `x = 0` is chosen even though `0` is no root. `ZeroLinearTermPicksZero` states this.
  - For `C = 0` the second candidate is `NaN` and there is no prediction. `ZeroLinearAndConstantTermsGiveNothing` states this.
- For `y = x²` and the target `4`, the code therefore predicts `x = 0` (`SquareExample`). `B = 0` makes `r1 = 0`, so the two roots `-2` and `2` never meet in a tie.
- The `<=` of the comparison (`ChartCanvas.tsx:89`, `store.ts:235`) sends an exact tie to `r1` (`InvertQuadraticChoice`).

The two copies of the inverse use opposite discriminant guards: the store tests `D >= 0` and the chart returns on `D < 0`. They can disagree only on a `NaN` discriminant. `DiscriminantGuardsAgree` shows that both then give no prediction. So one definition, `Prediction.Predicted`, serves both; only the centre differs:

- the store centres on the padded range of the displayed X values;
- the chart centres on the X override, falling back to that same range.

## Model

| member | source | states |
|---|---|---|
| Transforms.DropNaNFinite | src/utils/transforms.ts:3-5 | every surviving pair has two finite coordinates |
| Transforms.DropNaNFiniteMembers | src/utils/transforms.ts:3-5 | a pair survives iff it is in the input and both coordinates are finite |
| Transforms.DropNaNFiniteInOrder | src/utils/transforms.ts:3-5 | the filter distributes over concatenation and keeps a single pair iff it is finite, so the input order is kept |
| Transforms.DropNaNFiniteIdentity | src/utils/transforms.ts:3-5 | a list of finite pairs comes back unchanged |
| Transforms.MinOf | src/utils/transforms.ts:9 | the minimum is one of the values and at most each of them |
| Transforms.MaxOf | src/utils/transforms.ts:10 | the maximum is one of the values and at least each of them |
| Transforms.AutoDomain | src/utils/transforms.ts:7-18 | `[0, 1]` for no values; otherwise the midpoint is `(min + max) / 2` and the width is the span times `1 + 2·padRatio`, the span being `max - min`, or 2 when every value is the same; for a non-negative pad `lo < hi` and every value lies inside; with pad 0 the result is `[min, max]`, or `[v - 1, v + 1]` when every value is `v` |
| Transforms.AutoDomainSingleExample | src/utils/transforms.ts:7-18 | the single value 5 with the default pad 0.08 gives `[3.84, 6.16]` |
| Transforms.HasVariance | src/utils/transforms.ts:20-25 | true iff the list is non-empty and two of its values differ |
| Transforms.DisplayPairs | src/utils/transforms.ts:27-49 | at most as many points as the input, exactly as many iff no log axis hides a point, and the input itself with every flag off |
| Transforms.ApplyDisplayTransforms | src/utils/transforms.ts:27-49 | the output is the normalised, log-filtered and log-mapped list; the message list is exactly the one log message when a log axis is on and some point fails its test, and empty otherwise; with every flag off the output is the input |
| Transforms.NormalizedInUnitSquare | src/utils/transforms.ts:30-38 | every normalised coordinate lies in `[0, 1]`, and a constant axis maps to 0.5 |
| Transforms.NormalizeFallbackUnused | src/utils/transforms.ts:35-36 | the fallback to a span of 1 never applies, because the unpadded domain never has zero width |
| Transforms.LogFilterExact | src/utils/transforms.ts:41 | the survivors are exactly the points positive on the logged axes, and the filter keeps their order |
| Transforms.EstimateScreenSlope | src/utils/transforms.ts:51-55 | for a finite slope, the magnitude of `a` when the two scales are equal and non-zero; `NaN` for a `NaN` slope |
| Transforms.EstimateScreenSlopeNonNegative | src/utils/transforms.ts:51-55 | finite and non-negative for a finite slope, a non-zero X scale and two scales of the same sign |
| Regression.LinearFit | src/utils/regression.ts:3-46 | a linear result with no `c` and `n` the point count; R² is `NaN` iff there are no points; `a` is finite iff there are points and the mode's divisor (`sumXX` through the origin, the denominator otherwise) is non-zero, and then `b` and R² are finite too; through the origin `b` is 0 |
| Regression.ComputeLinearRegression | src/utils/regression.ts:3-46 | the two loops and the early returns compute exactly `LinearFit` |
| Regression.AccumulateLinear | src/utils/regression.ts:11-17 | the accumulated sums are the sums of x, y, xy, x² and y² over all points |
| Regression.LinearResiduals | src/utils/regression.ts:31-38 | the accumulated totals are the total and residual sums of squares |
| Regression.RSquaredAtMostOne | src/utils/regression.ts:39-44 | the R² rule gives at most 1 for non-negative sums, and exactly 1 when the residual sum is 0 |
| Regression.ComputeRegression | src/utils/regression.ts:129-131 | the same result as the linear regression |
| RegressionProperties.LinearSentinels | src/utils/regression.ts:5-29 | no points give `NaN` for `a`, `b` and R² with `n = 0`; otherwise `n` is the point count and R² is not `NaN`; through-origin always has `b = 0`; `sumXX = 0` gives `a = NaN` and `r2 = 0`; a zero denominator gives `NaN` for `a` and `b` with `r2 = 0` |
| RegressionProperties.LinearRSquaredAtMostOne | src/utils/regression.ts:39-45 | a finite linear R² is at most 1, in both modes |
| RegressionProperties.ResidualSumExpand | src/utils/regression.ts:11-17 | the residual sum Σ(y - (ax + b)) is `sumY - a·sumX - n·b` |
| RegressionProperties.ResidualMomentExpand | src/utils/regression.ts:11-17 | the moment Σx(y - (ax + b)) is `sumXY - a·sumXX - b·sumX` |
| RegressionProperties.LinearNormalEquations | src/utils/regression.ts:24-29 | with an intercept and a non-zero denominator, the fitted `a` and `b` are finite and solve both normal equations: Σ(y - (ax + b)) = 0 and Σx(y - (ax + b)) = 0 |
| RegressionProperties.SquaresSplit | src/utils/regression.ts:31-38 | for any line and any `m`, Σ(y - m)² is the residual sum of squares plus Σ(ŷ - m)² plus the two cross terms |
| RegressionProperties.LinearSquaresSplit | src/utils/regression.ts:24-38 | for the intercept fit, the total sum of squares is the residual sum of squares plus the sum of squares of the fitted values about the mean |
| RegressionProperties.LinearRSquaredInUnit | src/utils/regression.ts:24-45 | with at least one point the intercept fit's R² is finite and lies in `[0, 1]` |
| RegressionProperties.ThroughOriginNegativeRSquared | src/utils/regression.ts:20-45 | through the origin, which has no constant term, the bound below fails: (1, 10) and (2, 11) give R² = -31.4 |
| RegressionProperties.DistinctXGiveDenominator | src/utils/regression.ts:25-26 | two different X values make the denominator positive |
| RegressionProperties.VarianceGivesFiniteLinearFit | src/utils/regression.ts:18-45 | when X varies, `a`, `b` and R² are finite and `n` is the point count, in both modes |
| RegressionProperties.ConstantXIsDegenerate | src/utils/regression.ts:25-26 | when every X is the same, the intercept fit gives `NaN` for `a` and `b` with `r2 = 0` |
| RegressionProperties.CollinearFitIsExact | src/utils/regression.ts:24-45 | points on a line, with X varying, are fitted by exactly that line, with R² = 1 |
| RegressionProperties.ThroughOriginOnLine | src/utils/regression.ts:20-45 | points on a line through the origin, not all at x = 0, give exactly its slope, `b = 0` and R² = 1 |
| RegressionProperties.PerfectLineExample | src/utils/regression.test.ts:5-15 | the four test points give `n = 4` and R² = 1 |
| RegressionProperties.ThroughOriginExample | src/utils/regression.test.ts:16-25 | (1,1), (2,2), (3,3) through the origin give `a = 1` and `b = 0` |
| RegressionProperties.DoublingExample | src/utils/regression.ts:24-45 | points on y = 2x give `a = 2`, `b = 0` and R² = 1 |
| Elimination.PivotFrom | src/utils/regression.ts:85-88 | the scan ends on a row of `col..2`; when the best row so far is the first largest of the rows scanned, the result is the first largest of all |
| Elimination.PivotRow | src/utils/regression.ts:85-88 | the pivot is the first row of `col..2` whose entry in column `col` has maximal magnitude |
| Elimination.Swapped | src/utils/regression.ts:90-93 | rows `i` and `j` and their right-hand sides trade places and the third row is kept |
| Elimination.Reduced | src/utils/regression.ts:96-97 | the eliminated row is `row - f·pivotRow` from column `col` on, and unchanged before it |
| Elimination.EliminatedRow | src/utils/regression.ts:95-99 | eliminating one row changes that row and its right-hand side entry only |
| Elimination.EliminateFrom | src/utils/regression.ts:95-99 | the loop from row `r` on keeps the pivot row and every row before `r` |
| Elimination.Step | src/utils/regression.ts:85-99 | one column fails iff its pivot magnitude is below 1e-12; otherwise the pivot is at least 1e-12 and the earlier rows are untouched |
| Elimination.Forward | src/utils/regression.ts:83-100 | after `k` columns every pivot so far has magnitude at least 1e-12 |
| Elimination.Back | src/utils/regression.ts:102-107 | back substitution gives three entries, zero before the starting row |
| Elimination.Solve3Ref | src/utils/regression.ts:79-109 | a solution, when there is one, has three entries |
| EliminationProperties.Solve3NullIff | src/utils/regression.ts:83-100 | `solve3` returns null iff some chosen pivot has magnitude below 1e-12 |
| EliminationProperties.ForwardLowerZero | src/utils/regression.ts:94-99 | after the forward pass everything below the diagonal is zero |
| EliminationProperties.SwappedSolves | src/utils/regression.ts:90-93 | swapping two rows and their right-hand sides keeps the solution set |
| EliminationProperties.EliminateFromSolves | src/utils/regression.ts:95-99 | eliminating below a pivot keeps the solution set |
| EliminationProperties.ForwardSolves | src/utils/regression.ts:83-100 | the forward pass keeps the solution set |
| EliminationProperties.BackSolves | src/utils/regression.ts:102-107 | back substitution on an upper-triangular system with a non-zero diagonal solves it |
| EliminationProperties.Solve3Solves | src/utils/regression.ts:79-109 | a returned solution satisfies `A·x = b` exactly |
| EliminationProperties.Solve3Unique | src/utils/regression.ts:79-109 | a returned solution is the only solution |
| Solver.Solve3 | src/utils/regression.ts:79-109 | the in-place algorithm on copies of the inputs returns exactly the solution or failure of `Solve3Ref`; the inputs are values and stay unchanged |
| Solver.FindPivot | src/utils/regression.ts:85-88 | the loop finds the first row of maximal magnitude |
| Solver.Column | src/utils/regression.ts:84-99 | one column succeeds iff the pivot is large enough, and then leaves the arrays holding the system after that column |
| Solver.EliminateRow | src/utils/regression.ts:95-99 | the inner loop leaves the arrays holding the system with that row eliminated |
| Solver.BackSubstitute | src/utils/regression.ts:102-107 | the backward loop computes the back-substitution solution |
| QuadraticRegression.NormalMatrix | src/utils/regression.ts:72-77 | the normal equations form a well-shaped 3×3 system |
| QuadraticRegression.AccumulateQuadratic | src/utils/regression.ts:58-67 | the accumulated sums are the power sums of the points |
| QuadraticRegression.QuadraticResiduals | src/utils/regression.ts:116-123 | the accumulated totals are the total and residual sums of squares of the parabola |
| QuadraticRegression.QuadraticFit | src/utils/regression.ts:48-126 | a quadratic result with a `c` and `n` the point count; R² is `NaN` iff there are no points; `a` is finite iff there are points and `solve3` solves the normal equations, and then `b`, `c` and R² are finite too |
| QuadraticRegression.ComputeQuadraticRegression | src/utils/regression.ts:48-126 | the loops, the solver call and the early returns compute exactly `QuadraticFit` |
| QuadraticProperties.QuadraticSentinels | src/utils/regression.ts:50-125 | no points give `NaN` everywhere with `n = 0`; a singular system gives `NaN` coefficients with `r2 = 0`; a solved system gives finite coefficients and R²; `n` is always the point count |
| QuadraticProperties.QuadraticRSquaredAtMostOne | src/utils/regression.ts:116-124 | with at least one point, the quadratic R² is finite and at most 1 |
| QuadraticProperties.QuadraticSolvesNormalEquations | src/utils/regression.ts:68-113 | the returned coefficients solve the normal equations exactly |
| QuadraticProperties.MomentsExpand | src/utils/regression.ts:58-77 | for any parabola, Σ(y - ŷ), Σx(y - ŷ) and Σx²(y - ŷ) are the right-hand sides of the normal equations less the rows of `A` applied to `[a, b, c]` |
| QuadraticProperties.QuadraticNormalEquations | src/utils/regression.ts:68-113 | the solved parabola's residuals sum to zero, and so do they weighted by x and by x² |
| QuadraticProperties.QuadSquaresSplit | src/utils/regression.ts:116-123 | for any parabola and any `m`, Σ(y - m)² is the residual sum of squares plus Σ(ŷ - m)² plus the three cross terms |
| QuadraticProperties.QuadraticSquaresSplit | src/utils/regression.ts:111-123 | for the solved parabola, the total sum of squares is the residual sum of squares plus the sum of squares of the fitted values about the mean |
| QuadraticProperties.QuadraticRSquaredInUnit | src/utils/regression.ts:111-125 | with at least one point the quadratic R² is finite and lies in `[0, 1]`, a singular system reporting 0 |
| QuadraticProperties.ParabolaFitIsExact | src/utils/regression.ts:48-126 | points on a parabola, when `solve3` succeeds, are fitted by exactly that parabola, with R² = 1 |
| Prediction.ForwardY | src/components/ChartCanvas.tsx:59-63 | with finite coefficients, the fitted line or parabola at `x`; `NaN` when `a` or `b` is `NaN` |
| Prediction.InvertLinear | src/components/ChartCanvas.tsx:66-70 | no answer when `a = 0` or when a coefficient is `NaN` |
| Prediction.InvertLinearRoundTrip | src/components/ChartCanvas.tsx:66-70 | for `a ≠ 0` the answer exists, the line maps it back to `y`, and it is the only preimage of `y` |
| Prediction.InvertQuadratic | src/components/ChartCanvas.tsx:72-92 | a flat parabola with `B = 0` gives no answer |
| Prediction.InvertQuadraticFlat | src/components/ChartCanvas.tsx:76-81 | below the 1e-12 threshold the answer is `-C / B`, which solves the linear part, and there is none when `B = 0` |
| Prediction.InvertQuadraticNoRealRoot | src/components/ChartCanvas.tsx:82-83 | a negative discriminant gives no answer |
| Prediction.DiscriminantGuardsAgree | src/state/store.ts:229-237 | when the discriminant is `NaN`, the store's `D >= 0` guard also gives no answer, as the chart's `D < 0` guard does |
| Prediction.Root1 | src/components/ChartCanvas.tsx:84 | on finite inputs with `A ≠ 0`, the real number `(-B - sign(B)·S) / (2A)`; `NaN` when an input is `NaN` |
| Prediction.Root2 | src/components/ChartCanvas.tsx:85 | `NaN` when an input is `NaN`; for `r1 = 0`, `NaN` when `C = 0` and infinite otherwise |
| Prediction.Nearer | src/components/ChartCanvas.tsx:88-89 | one of the two candidates; for two finite ones, the one at least as near `xc` as both, `r1` on a tie; a finite `r1` beats an infinite `r2`; a `NaN` `r2` wins |
| Prediction.StableRootIsRoot | src/components/ChartCanvas.tsx:84 | with `B ≠ 0` and `D ≥ 0`, `r1` is a real root of `A x² + B x + C` |
| Prediction.InvertQuadraticChoice | src/components/ChartCanvas.tsx:84-89 | with `B ≠ 0` and `D ≥ 0`, the answer is whichever of `r1` and `r2` is nearer the centre, `r1` on ties |
| Prediction.MirroredIsNegatedRoot | src/components/ChartCanvas.tsx:85 | the second candidate is the negated co-root: its negation is a root |
| Prediction.ZeroLinearTermPicksZero | src/components/ChartCanvas.tsx:84-89 | with `B = 0` and `C ≠ 0` the answer is 0, which is not a root |
| Prediction.ZeroLinearAndConstantTermsGiveNothing | src/components/ChartCanvas.tsx:84-90 | with `B = 0` and `C = 0` there is no answer, although 0 is a root |
| Prediction.SquareExample | src/components/ChartCanvas.tsx:84-89 | `x²` solved for 4 gives 0 wherever the centre is |
| Prediction.PredictFrom | src/components/ChartCanvas.tsx:59-93 | in X mode a point exists iff `f(v)` is finite, and it is `(v, f(v))`; in Y mode a point has `y = v` |
| Prediction.Predicted | src/components/ChartCanvas.tsx:54-56 | no point unless prediction and regression are enabled, a result exists and the target is finite; the target is the point's X or Y, as the mode says |
| Prediction.LinearPredictionRoundTrip | src/components/ChartCanvas.tsx:64-70 | solving a linear fit with `a ≠ 0` for `v` gives a point the fit maps back to `v` |
| Prediction.QuadraticPredictionRoundTrip | src/components/ChartCanvas.tsx:72-91 | solving a parabola for `v` gives a point with `y = v`, and the fit maps it back to `v` when `r1` was chosen |
| Pairs.FindColumn | src/state/store.ts:276-277 | the index of the first column with the key; none iff no column has it |
| Pairs.RowCount | src/state/store.ts:280 | the longer of the two column lengths |
| Pairs.ColumnPairs | src/state/store.ts:274-289 | every produced pair is finite |
| Pairs.ScannedPairs | src/state/store.ts:279-287 | the first `k` turns push at most `k` pairs, each with two finite coordinates |
| Pairs.ScanPairs | src/state/store.ts:279-287 | the indexed push loop produces exactly the scanned pairs up to the longer length |
| Pairs.PlottedPairs | src/state/store.ts:276-287 | the lookups and the loop produce exactly the pairs of the plotted columns |
| Pairs.ScanIsFilter | src/state/store.ts:280-288 | the scan is `dropNaNFinite` over every row, cells past a column's end read as missing, in row order |
| Pairs.ScannedPairsMembers | src/state/store.ts:281-286 | a pair is produced iff some row below the count holds it in two finite cells |
| Pairs.MissingColumnGivesNoPairs | src/state/store.ts:278 | a missing X or Y column gives no pairs |
| Pairs.PresentColumnsAreScanned | src/state/store.ts:276-288 | with both columns present, the first column of each key is filtered over its rows |
| TableOps.SetValue | src/state/store.ts:118 | an in-range row is replaced and any other row number changes nothing |
| TableOps.SetCellIn | src/state/store.ts:113-122 | the table keeps its number of columns |
| TableOps.SetCellChangesOneCell | src/state/store.ts:113-122 | only `values[row]` of the columns with the key changes; every other cell, field and column is kept |
| TableOps.SetCellOutOfRange | src/state/store.ts:113-122 | an out-of-range row leaves the table unchanged |
| TableOps.AddRowTo | src/state/store.ts:91-96 | every column gets one value appended, `null`, and nothing else changes |
| TableOps.AddRowAppendsNull | src/state/store.ts:91-96 | every column is one longer, keeps its old cells and metadata, and ends in `null` |
| TableOps.AddColumnTo | src/state/store.ts:97-110 | one column is appended and the existing columns are untouched |
| TableOps.AddColumnAppendsBlank | src/state/store.ts:97-110 | the new column has the key, the name (default `C`), the type (default number) and no unit, and is all `null`, as long as the first column, or empty when there was none |
| TableOps.RemoveColumnFrom | src/state/store.ts:111-112 | no remaining column has the key |
| TableOps.RemoveColumnExact | src/state/store.ts:111-112 | a column remains iff it was present with another key; removal distributes over concatenation, so order is kept; a missing key changes nothing |
| TableOps.RenameIn | src/state/store.ts:125 | exactly the columns with the key get the new name |
| TableOps.RenamedPlot | src/state/store.ts:126-131 | the X label is renamed when `xKey` matches, otherwise the Y label when `yKey` matches, otherwise nothing changes |
| TableOps.RenameBothAxesUpdatesXOnly | src/state/store.ts:127-130 | when both axes show the column, only the X label changes |
| TableOps.BaseLabel | src/state/store.ts:138 | the label's prefix before the first `" ["`, or the whole label when there is none |
| TableOps.BaseLabelUnique | src/state/store.ts:138 | the prefix is the only prefix with that property |
| TableOps.BaseOfUnitLabel | src/state/store.ts:138 | a base without `" ["`, followed by `" [unit]"`, gives the base back |
| TableOps.BaseIsStable | src/state/store.ts:138 | taking the base twice is the same as taking it once |
| TableOps.WithUnit | src/state/store.ts:138 | the new label has the old label's base; with no unit it is that base, with a unit it is three characters longer than base and unit together |
| TableOps.WithUnitIdempotent | src/state/store.ts:138 | setting the same unit twice equals setting it once, and the base is unchanged |
| TableOps.UnitReplaced | src/state/store.ts:138 | a new unit replaces the previous one |
| TableOps.UnitExample | src/state/store.ts:138 | `Length [cm]` becomes `Length [m]` with unit `m`, and `Length` with no unit or an empty one |
| TableOps.UnitIn | src/state/store.ts:135 | exactly the columns with the key get the new unit |
| TableOps.UnitPlot | src/state/store.ts:136-141 | the X label, else the Y label, of the matching axis is re-suffixed; otherwise the plot is unchanged |
| TableOps.UnitPlotIdempotent | src/state/store.ts:133-142 | setting the same unit twice changes the plot as once |
| TableOps.UnitInIdempotent | src/state/store.ts:133-142 | setting the same unit twice changes the columns as once |
| DatasetStore.ModelOf | src/state/store.ts:262 | the selected model, linear when none is set |
| DatasetStore.Recomputed | src/state/store.ts:255-267 | enabled, through-zero and model are kept; without X variance there is no result and the fixed error text; otherwise there is no error and the result is the fit of the selected model |
| DatasetStore.RecomputedFitIsSound | src/state/store.ts:262-266 | past the gate, the result is of the selected model, counts every point and has a finite R² ≤ 1; a linear result has finite coefficients; a quadratic one is finite iff `solve3` succeeds |
| DatasetStore.RecomputeIdempotent | src/state/store.ts:255-267 | recomputing twice on the same points equals recomputing once |
| DatasetStore.Store.constructor | src/state/store.ts:87-88 | the store starts with the given state |
| DatasetStore.Store.SetCell | src/state/store.ts:113-122 | the table becomes the one-cell update and the other fields are unchanged |
| DatasetStore.Store.AddRow | src/state/store.ts:91-96 | the table gets the appended row and the other fields are unchanged |
| DatasetStore.Store.AddColumn | src/state/store.ts:97-110 | the table gets the appended column and the other fields are unchanged |
| DatasetStore.Store.RemoveColumn | src/state/store.ts:111-112 | the table loses the columns with the key and the other fields are unchanged |
| DatasetStore.Store.RenameColumn | src/state/store.ts:123-132 | the table and the plot labels are renamed and the other fields are unchanged |
| DatasetStore.Store.SetUnit | src/state/store.ts:133-142 | the table units and the plot labels are updated and the other fields are unchanged |
| DatasetStore.Store.SetDomains | src/state/store.ts:153 | only the two domain overrides of the view change |
| DatasetStore.Store.NumericPairs | src/state/store.ts:274-289 | the finite pairs of the plotted columns; the final `dropNaNFinite` changes nothing |
| DatasetStore.Store.RecomputeRegression | src/state/store.ts:255-267 | the regression becomes its recomputation on the store's points and the other fields are unchanged |
| DatasetStore.Store.FitNicely | src/state/store.ts:154-250 | the view becomes `NiceView` of the old state and the other fields are unchanged |
| DatasetStore.CandidateDomains | src/state/store.ts:158-248 | the pushes build the candidate lists, so the domains are `autoDomain` of the displayed values plus the curve values and the prediction point |
| DatasetStore.PushCurve | src/state/store.ts:162-184 | the pushes append exactly the curve values over the padded X range |
| Fitting.CurveValues | src/state/store.ts:163-183 | the curve at both ends of the range, plus the vertex exactly when the parabola has `a ≠ 0` and its vertex lies strictly inside |
| Fitting.NiceView | src/state/store.ts:247-249 | only the two domains of the view change, and both are non-empty intervals |
| Fitting.NiceViewShowsData | src/state/store.ts:158-160 | every displayed point lies inside the new domains |
| Fitting.NiceViewShowsPrediction | src/state/store.ts:186-245 | the prediction point, when there is one, lies inside the new domains |
| Fitting.NiceViewShowsCurve | src/state/store.ts:162-184 | the fitted curve, anywhere on the padded X range, lies inside the new Y domain |
| Fitting.CurveBracketed | src/state/store.ts:163-183 | the curve at any X of the range lies between two of the pushed curve values |
| Fitting.ParabolaBracketed | src/state/store.ts:165-176 | a parabola on an interval lies between its values at the ends and at the vertex, when the vertex is inside |
| Chart.PairsRawIsNumericPairs | src/components/ChartCanvas.tsx:15-29 | the chart's scan, without the final filter, gives the same pairs as `numericPairs` |
| Chart.ChartPrediction | src/components/ChartCanvas.tsx:52-93 | without an X override the chart draws the point `fitNicely` makes room for |
| Chart.CentreOnlyForQuadraticY | src/components/ChartCanvas.tsx:86-89 | the centre matters only when a quadratic fit is solved for X |
| Chart.ShownX | src/components/ChartCanvas.tsx:96-98 | without an X override the shown X domain is non-empty |
| Chart.ShownY | src/components/ChartCanvas.tsx:96-99 | without a Y override the shown Y domain is non-empty |
| Chart.AutoDomainsShowAll | src/components/ChartCanvas.tsx:96-99 | without overrides, both shown domains are non-empty and contain every displayed point and the predicted point |
| Chart.ZoomFactor | src/components/ChartCanvas.tsx:150 | under the exponential's laws the factor is positive: below 1 for a positive `deltaY`, above 1 for a negative one, and 1 for zero |
| Chart.Zoomed | src/components/ChartCanvas.tsx:156-159 | the new span is the old span times the factor, and a positive factor keeps `min < max` |
| Chart.ZoomKeepsCursor | src/components/ChartCanvas.tsx:156-159 | the cursor's data point keeps its relative position in the domain |
| Chart.ZoomInverse | src/components/ChartCanvas.tsx:156-159 | for any two factors whose product is 1, zooming by one and then by the other about the same point restores the domain |
| Chart.OppositeNotches | src/components/ChartCanvas.tsx:150 | the factors of two opposite wheel notches multiply to 1 |
| Chart.WheelView | src/components/ChartCanvas.tsx:150-160 | both domains become overrides, and no other field of the view changes |
| Chart.OnWheel | src/components/ChartCanvas.tsx:150-160 | the shown domains of the store's view (`view.domainX ?? autoDomain(xVals)`, and the same for Y) are zoomed about the cursor by the same factor and written back, and nothing else in the store changes |
| Chart.WheelThereAndBack | src/components/ChartCanvas.tsx:150-160 | one notch and then the opposite notch about the same cursor point give the shown domains back, now as overrides |
| Chart.Panned | src/components/ChartCanvas.tsx:175-176 | both ends move by the delta, so the span is kept |
| Chart.PanInverse | src/components/ChartCanvas.tsx:175-176 | panning back by the negated delta restores the domain, and two pans add up |
| Chart.OnMouseMove | src/components/ChartCanvas.tsx:166-177 | without a drag nothing changes; during a drag both start domains are shifted by the data deltas |
| Chart.OnDoubleClick | src/components/ChartCanvas.tsx:181 | both overrides are cleared and nothing else changes |
| Chart.ResetShowsAutoDomains | src/components/ChartCanvas.tsx:96-99 | after the reset the chart shows the padded auto domains of the displayed and predicted values |
| NumberParsing.Trim | src/utils/number.ts:3 | no longer than the text, and with no white space at either end |
| NumberParsing.TrimBounds | src/utils/number.ts:3 | trimming cuts off the leading and trailing white space, and leaves nothing iff the text is all white space |
| NumberParsing.TrimCharacterised | src/utils/number.ts:3 | any slice without outer white space, with only white space around it, is the trimmed text |
| NumberParsing.TrimPadding | src/utils/number.ts:3 | surrounding white space does not change the trimmed text |
| NumberParsing.TrimIdempotent | src/utils/number.ts:3 | trimming twice is trimming once |
| NumberParsing.ReplaceFirst | src/utils/number.ts:11 | only the first occurrence is replaced, and text without it is unchanged |
| NumberParsing.RemoveAllMembers | src/utils/number.ts:14 | exactly the other characters remain, in order |
| NumberParsing.Normalized | src/utils/number.ts:8-15 | never longer than the trimmed text; unchanged without a comma; a comma survives only when there is no dot; the result has a dot iff the text had a comma or a dot |
| NumberParsing.DecimalComma | src/utils/number.ts:9-11 | with a comma and no dot, only the first comma becomes a dot, and later commas remain |
| NumberParsing.ThousandsCommas | src/utils/number.ts:12-14 | with a comma and a dot, every comma is removed and the rest stays in order |
| NumberParsing.NoCommaUnchanged | src/utils/number.ts:8-15 | without a comma the trimmed text is passed on unchanged |
| NumberParsing.ParseNumeric | src/utils/number.ts:1-18 | null input and blank input give null; otherwise a number iff the conversion of the normalised text is finite, and then that number |
| NumberParsing.SurroundingSpaceIgnored | src/utils/number.ts:3 | surrounding white space never changes the result |
| NumberParsing.FirstCommaOnlyExample | src/utils/number.ts:9-11 | `1,2,3` is normalised to `1.2,3` |

## Left out

- IEEE-754 rounding and signed zero are not modelled: arithmetic is exact over the reals. Tolerances such as "close to 1" in the tests become equalities.
- `Math.sqrt`, `Math.exp`, `Math.log10` and `Number(...)` are parameters with the laws listed above. The model does not define them.
- Rendering, hooks, `ResizeObserver`, scales, axes, tick formatting, the steepness warning text and the effect that re-runs the regression are user-interface code and are not modelled.
- Screen-to-data conversion (`toDataX`, `toDataY`, `invert`) and the pixel-to-data pan deltas are parameters. They are `x0`/`y0` for the zoom and `dxData`/`dyData` for the pan.
- The chart's render-time values are parameters of the wheel handler: the displayed points and the predicted point. `OnWheel` computes the shown domains from them and the store's view.
- The drag state that `onMouseDown` records and `onMouseUp`/`onMouseLeave` clear is a parameter of the move handler.
- Key generation in `addColumn` (`crypto.randomUUID`, `uuidv4`) is left out: the key is a parameter.
- `defaultState` and the initial table are left out: the constructor takes the state.
- The setters that only copy an argument into one field (`setTable`, `setXY`, `setAxisLabels`, the style, view and regression flags, and the prediction fields) are not modelled.
- The zustand `create`/`set` plumbing is not modelled. Each store method updates the fields of one object.
- Export, CSV import and the other components are not part of this model.
- Transforms.EstimateScreenSlopeNonNegative: non-negative only when the two scales have the same sign. With opposite signs the source's result is negative too. The Y scale is always positive. The X scale is positive whenever the chart is wider than its 88 px of horizontal margins (`ChartCanvas.tsx:100`, default margins at `store.ts:42`). For a narrower chart `xScale(1) - xScale(0)` is negative, the `|| 1` of `ChartCanvas.tsx:119` replaces only 0, and the source's screen slope is negative.
- NumberParsing.ParseNumeric: the white-space set is the one JavaScript's `trim` removes, listed in `Spaces`. `String(input)` on non-string input is not modelled; the input is an optional string.
