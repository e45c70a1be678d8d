# TADPOLE forecasting toolkit, modelled in Dafny

This project models the core of the TADPOLE challenge toolkit. The toolkit forecasts, for
each subject of the LB2 cohort and each of the coming months, three things:

- the relative likelihood of the clinical statuses CN, MCI and AD;
- the ADAS13 cognitive score, with a 50% interval;
- the ventricle volume relative to the intracranial volume (Ventricles_ICV), with a 50% interval.

The toolkit also scores such forecasts with the challenge's metrics.

The modules follow the source files.

- `Loading` (`loading.dfy`, from `tadpole/io.py`): the fields derived while loading.
  - The clinical status is the last space-separated token of the diagnosis.
  - Ventricles_ICV is the ventricle volume divided by the intracranial volume.
  - Age at exam is the smallest recorded age plus the years since the subject's first exam.
  - `AGE_INT` is that age truncated toward zero.
  - `ExamMonth` is the exam's day number divided by 365 and multiplied by 12.
- `History` (`history.dfy`) holds a subject's visits as the strategies see them. It contains:
  - the unstable sort by exam date, as the relation `IsDateOrdering`;
  - the "most recent value of a field" selection (`dropna().tail(1)`).
- `Forecasts` (`forecasts.dfy`) holds what both strategies share:
  - the status probabilities;
  - the Ventricles_ICV band;
  - the outcome of a run.
- `SimpleModel` (`simple.dfy`, from `tadpole/models/simple.py`) is the carry-forward strategy.
- `LinearModel` (`linear.dfy`, from `tadpole/models/linear_regression.py`) is the regression strategy. It uses `LeastSquares` (`fit.dfy`), which is degree-1 `numpy.polyfit` in exact closed form.
- `Submission` (`submission.dfy`, from `tadpole/submission.py`) holds the empty submission table. The table is the class `ForecastTable`, whose columns the strategies overwrite in place.
- `Validation` (`validation.dfy`, from `tadpole/validation.py`) selects the LB2 test subjects.
- `Metrics` and `Ranking` (`metrics.dfy`, `ranking.dfy`, from `notebooks/tadpole_metrics.py`) hold the scores:
  - the Hand & Till A-value and MAUC;
  - balanced classification accuracy;
  - the weighted error score;
  - the coverage probability accuracy.
- `Wrappers` (`wrappers.dfy`) holds `Option`. `None` stands for a value that is missing or a call that raises.

Some conventions run through the whole model.

- **Exam dates** are day numbers counted from 1 January 2000.
- **A strategy run** is a method on the table. The method returns the date ordering it chose and the outcome.
  - Its contract ties the new table to a function of the ordered visits: `CarryForward` or `LinearForecast`.
  - Lemmas state what those functions mean in terms of the history.
- **Failures.** A run that raises part-way has already written the columns of its earlier stages. The model keeps those columns too.

The clinical status is the last piece of `split(' ')` (tadpole/io.py:50). That call
splits on the single space character, not on any run of whitespace. So "MCI  to
Dementia", with two spaces, still gives "Dementia", and a diagnosis ending in a space
gives the empty status "".

## Model

| member | source | states |
|---|---|---|
| Loading.Split | tadpole/io.py:50 | `str.split(' ')`: at least one piece; no piece contains a space; exactly one piece, the whole text, iff the text has no space; otherwise the last piece is the text after some space |
| Loading.LastDiagnosis | tadpole/io.py:48-52 | missing status iff missing diagnosis; the status has no space; it is the whole text when the text has no space, and otherwise a suffix that follows a space |
| Loading.LastDiagnosisAfterLastSpace | tadpole/io.py:48-50 | the status is exactly the text after the last space: for any position k following a space with no space after it, the status is the text from k on |
| Loading.ConversionGivesLatestDiagnosis | tadpole/io.py:48-52 | the diagnosis "MCI to Dementia" gives the status "Dementia" |
| Loading.DoubleSpaceGivesLatestDiagnosis | tadpole/io.py:50 | "MCI  to Dementia", with two spaces, still gives "Dementia" |
| Loading.TrailingSpaceGivesEmpty | tadpole/io.py:50 | a diagnosis ending in a space gives the empty status |
| Loading.VentriclesICV | tadpole/io.py:46 | defined iff both volumes are present and the intracranial volume is non-zero; the ratio times the intracranial volume is the ventricle volume; it lies in [0, 1] when the ventricles are at most the intracranial volume |
| Loading.FirstDay | tadpole/io.py:15-16 | `values.min()`: a day of the subject, no later than any other |
| Loading.MinAge | tadpole/io.py:16 | `x["AGE"].min()`, skipping missing ages: missing iff every age is missing; otherwise a recorded age no larger than any other |
| Loading.AgeAtExam | tadpole/io.py:14-17 | one age per exam; present iff the subject has a recorded age; the first exam gets the smallest recorded age; two exams' ages differ by their day difference divided by 365.25 |
| Loading.AgeFollowsExamDate | tadpole/io.py:15-16 | a later exam never has a smaller age |
| Loading.AgeInt | tadpole/io.py:22 | truncation toward zero: for x >= 0, r <= x < r + 1; for x < 0, r - 1 < x <= r |
| Loading.ExamMonth | tadpole/io.py:55-58 | the reference day gives month 0; the months are non-negative iff the day is on or after the reference day |
| Loading.ExamMonthShift | tadpole/io.py:58 | d days later is d * 12 / 365 months later, so 365 days later is exactly 12 months later, and later days give later months |
| Loading.SubjectVisits | tadpole/io.py:14-58 | each visit carries its exam day, its age from `add_age` (`AgeAtExam` of the subject's days and recorded ages), the status from `last_diagnosis`, its ADAS13 and its Ventricles_ICV ratio; ages follow exam dates (a later visit has an age whenever an earlier one has, and it is no smaller) |
| History.InsertByDate | tadpole/models/simple.py:17 | inserting into a date-ordered sequence keeps it ordered and adds exactly the visit |
| History.SortByDate | tadpole/models/simple.py:17 | there is always a date ordering of a history |
| History.MostRecent | tadpole/models/simple.py:19 | `dropna().tail(1)`: missing iff no visit has the field; otherwise the value of a visit after which no visit has the field |
| History.MostRecentExists | tadpole/models/simple.py:19-44 | whatever the order of ties, a most recent value exists iff some visit of the history has the field |
| History.MostRecentIsLatest | tadpole/models/simple.py:19-44 | the most recent value belongs to a visit with the field whose date is the latest among visits with the field |
| History.LastEqual | tadpole/models/simple.py:17 | two date orderings of the same visits with distinct dates end with the same visit |
| History.AscendingUnique | tadpole/models/simple.py:17 | two date-ascending arrangements of the same multiset with distinct dates are equal |
| History.DateOrderingUnique | tadpole/models/simple.py:17 | when no two different visits share a date, the unstable sort has exactly one result |
| Forecasts.StatusProbabilities | tadpole/models/simple.py:20-27 | the likelihoods sum to 1 and each lies in [0, 1]; "Dementia" makes AD more likely than CN and MCI together; an unknown status gets a guess 0.01 away from uniform |
| Forecasts.StatusColumns | tadpole/models/simple.py:30-32 | exactly the three probability columns, one cell per row; every cell of each column is that status's likelihood for its class, and every row sums to 1 |
| Forecasts.FillStatus | tadpole/models/simple.py:30-32 | the table's new forecast columns are the old ones overwritten by the status columns; identifying columns unchanged |
| Forecasts.VentriclesInterval | tadpole/models/simple.py:46-47 | the band lies within [0, 1], holds any ratio in [0, 1], and is exactly 1% either side when not cut |
| Forecasts.VentriclesColumns | tadpole/models/linear_regression.py:64-66 | the estimate column is the estimates; each present estimate gets the cut 1% band; an empty cell stays empty in all three |
| SimpleModel.AdasInterval | tadpole/models/simple.py:37-38 | upper is the score plus 1, lower never below 0, the band holds any non-negative score and is exactly 1 either side from score 1 on |
| SimpleModel.AdasColumns | tadpole/models/simple.py:36-38 | the three ADAS13 columns, every row the score and its band |
| SimpleModel.CarryForward | tadpole/models/simple.py:17-47 | the columns written are forecast columns, one cell per row |
| SimpleModel.FilledColumns | tadpole/models/simple.py:30-47 | a filled run writes all nine forecast columns |
| SimpleModel.FillAdas | tadpole/models/simple.py:36-38 | the new forecast columns are the old ones overwritten by the ADAS13 columns |
| SimpleModel.FillVentricles | tadpole/models/simple.py:45-47 | the new forecast columns are the old ones overwritten by the Ventricles_ICV columns of a constant estimate |
| SimpleModel.CreatePrediction | tadpole/models/simple.py:4-48 | chooses a date ordering of the history; the outcome and the new forecast columns are those of `CarryForward` on it; identifying columns unchanged |
| SimpleModel.CarryForwardOutcome | tadpole/models/simple.py:19-44 | the run fills the table iff the history has a status, an ADAS13 and a ratio; otherwise it stops at the first of them (in that order) that no visit has |
| SimpleModel.CarryForwardColumns | tadpole/models/simple.py:19-47 | a filled run writes the nine columns from the three most recent values; a run stopped at ADAS13 holds exactly the status columns of the most recent status, and one stopped at Ventricles_ICV holds those plus the ADAS13 columns of the most recent score; no regression ever fails |
| SimpleModel.FilledUniform | tadpole/models/simple.py:29-47 | every forecast month of a filled table carries the same values |
| SimpleModel.FilledBands | tadpole/models/simple.py:21-47 | a filled row holds the most recent values themselves, probabilities summing to 1, an ADAS13 band never below 0 and a ratio band within [0, 1], each band holding a valid estimate |
| SimpleModel.CarryForwardIgnoresTies | tadpole/models/simple.py:17 | with distinct exam dates every date ordering gives the same forecast |
| SimpleModel.TiesCanChangeForecast | tadpole/models/simple.py:17-35 | two complete visits on one date with different ADAS13 scores are a date ordering in either order, and the two orders give different forecasts |
| LinearModel.FitPoints | tadpole/models/linear_regression.py:38-58 | the regression points are exactly the (age, value) pairs of visits whose age and value are present and positive |
| LinearModel.FitFailsOnlyWithoutPoints | tadpole/models/linear_regression.py:41-59 | polyfit raises iff no visit is usable |
| LinearModel.FitNeedsAge | tadpole/models/linear_regression.py:44-62 | after a successful regression the most recent age exists |
| LinearModel.LastAge | tadpole/models/linear_regression.py:44-62 | `AGE_AT_EXAM.dropna().iloc[-1]`: the most recent age |
| LinearModel.Trend | tadpole/models/linear_regression.py:42-62 | each row with a forecast month holds the line at the last age plus month / 12; an empty month gives an empty cell |
| LinearModel.AdasTrend | tadpole/models/linear_regression.py:44-45 | `np.maximum`: each estimate is at least the most recent score and at least the trend, and equals one of them |
| LinearModel.Offset | tadpole/models/linear_regression.py:47-48 | every present cell shifted by the offset, empty cells kept |
| LinearModel.AdasColumns | tadpole/models/linear_regression.py:46-48 | exactly the three ADAS13 columns: the estimates themselves, and bands of exactly the estimate minus 1 and plus 1, with no floor at 0; an empty estimate leaves empty bands |
| LinearModel.VentriclesStageResult | tadpole/models/linear_regression.py:54-66 | the Ventricles_ICV stage stops with the columns unchanged iff no visit has a ratio or the regression fails; otherwise it fills the table, adding the band columns of the fitted line at each horizon |
| LinearModel.AdasStageResult | tadpole/models/linear_regression.py:37-48 | the ADAS13 stage stops with the columns unchanged iff no visit has a score or the regression fails; otherwise it adds the ADAS13 columns of the floored trend and runs the Ventricles_ICV stage |
| LinearModel.LinearForecastColumns | tadpole/models/linear_regression.py:19-66 | for each way the run ends, exactly the columns written: none without a status, the status columns, those plus the ADAS13 columns, or all nine columns of the two fitted lines |
| LinearModel.LinearFilledRows | tadpole/models/linear_regression.py:31-66 | each row of a filled table holds the most recent status's likelihoods; with a forecast month, an ADAS13 estimate at least the most recent score with bands exactly 1 either side, and a ratio band within [0, 1] holding any valid estimate; without one, no ADAS13 or ratio forecast |
| LinearModel.AssignAdas | tadpole/models/linear_regression.py:46-48 | the new forecast columns are the old ones overwritten by the ADAS13 columns of the estimates |
| LinearModel.AssignVentricles | tadpole/models/linear_regression.py:64-66 | the new forecast columns are the old ones overwritten by the Ventricles_ICV columns of the estimates |
| LinearModel.CreatePrediction | tadpole/models/linear_regression.py:4-67 | chooses a date ordering of the history; the outcome and the new forecast columns are those of `LinearForecast` on it; identifying columns unchanged |
| LinearModel.UsableExists | tadpole/models/linear_regression.py:38-41 | whatever the order of ties, the regression succeeds iff some visit of the history is usable |
| LinearModel.LinearOutcome | tadpole/models/linear_regression.py:21-59 | the run ends in exactly one of six ways, each characterised by which fields the history has and whether it has usable regression points |
| LinearModel.AdasTrendMonotone | tadpole/models/linear_regression.py:44-45 | with a non-decreasing line, a later forecast month never gets a lower ADAS13 estimate |
| LinearModel.VentriclesFollowLine | tadpole/models/linear_regression.py:59-64 | when the usable ratio points lie on a line with two distinct ages, a filled table forecasts the ratio on that line at each horizon |
| LinearModel.LinearForecastIgnoresTies | tadpole/models/linear_regression.py:19 | with distinct exam dates every date ordering gives the same forecast |
| LeastSquares.Solve | tadpole/models/linear_regression.py:41 | the closed form satisfies both normal equations |
| LeastSquares.NormalEquationsUnique | tadpole/models/linear_regression.py:41 | any line satisfying both normal equations is the closed form |
| LeastSquares.ResidualBySums | tadpole/models/linear_regression.py:41 | the residual sum equals Sy - a Sx - n b |
| LeastSquares.MomentBySums | tadpole/models/linear_regression.py:41 | the x-weighted residual sum equals Sxy - a Sxx - b Sx |
| LeastSquares.Fit | tadpole/models/linear_regression.py:41 | defined iff the determinant is non-zero; then both residual sums are 0 |
| LeastSquares.FitIsUnique | tadpole/models/linear_regression.py:41 | the fitted line is the only line with both residual sums 0 |
| LeastSquares.OnLineResiduals | tadpole/models/linear_regression.py:41 | points on a line have zero residual sums against it |
| LeastSquares.FitRecoversLine | tadpole/models/linear_regression.py:41-42 | points on a line with a non-zero determinant give back that line |
| LeastSquares.SameXHasNoFit | tadpole/models/linear_regression.py:41 | points sharing one x leave the normal equations singular |
| LeastSquares.SpreadZero | tadpole/models/linear_regression.py:41 | the spread about x is never negative and is 0 only when every point sits at x |
| LeastSquares.DetStep | tadpole/models/linear_regression.py:41 | adding a point raises the determinant by the spread of the others about its x |
| LeastSquares.DetZeroSameX | tadpole/models/linear_regression.py:41 | the determinant is never negative, and it is 0 only when all points share their x |
| LeastSquares.PolyFit | tadpole/models/linear_regression.py:41-59 | raises iff there are no points or every x is 0; with two distinct x values it is the least-squares fit; a result always has zero residual sum; with one shared x it passes through (x, mean y) |
| LeastSquares.SinglePointFit | tadpole/models/linear_regression.py:41-45 | one point (c, y), c != 0, gives slope y / 2c and intercept y / 2, a line through the point |
| Submission.NextMonth | tadpole/submission.py:48 | one calendar month later, same day, month kept in 1..12 |
| Submission.AddMonths | tadpole/submission.py:48 | `relativedelta(months=i)`: i months later in the month count, same day |
| Submission.AddMonthsSteps | tadpole/submission.py:48 | the year/month arithmetic equals stepping one month at a time, so December rolls over into January |
| Submission.ForecastDate | tadpole/submission.py:48 | forecast month i + 1 is the first of the month i months after May 2010 |
| Submission.RepeatAt | tadpole/submission.py:40 | `numpy.repeat`: element k of the repeated sequence is element k / n |
| Submission.TileAt | tadpole/submission.py:45-51 | `numpy.tile(...).flatten()`: element k of the tiled sequence is element k % length of the block |
| Submission.MonthNumbers | tadpole/submission.py:45 | `range(1, n + 1)` |
| Submission.ForecastDates | tadpole/submission.py:48 | the dates of forecast months 1..n |
| Submission.Constant | tadpole/models/simple.py:30 | a column with every cell set to the value |
| Submission.ForecastTable.constructor | tadpole/submission.py:21-43 | a table of the given rows with all twelve columns empty |
| Submission.ForecastTable.SetRID | tadpole/submission.py:44 | the RID column becomes the values; nothing else changes |
| Submission.ForecastTable.SetForecastMonth | tadpole/submission.py:45 | the month column becomes the values; nothing else changes |
| Submission.ForecastTable.SetForecastDate | tadpole/submission.py:51 | the date column becomes the values; nothing else changes |
| Submission.ForecastTable.Fill | tadpole/models/simple.py:30 | `loc[:, c] = x`: column c becomes constant x; nothing else changes |
| Submission.ForecastTable.Assign | tadpole/models/linear_regression.py:46 | `loc[:, c] = column`: column c becomes the column; nothing else changes |
| Submission.RowLayout | tadpole/submission.py:40-51 | row k belongs to subject k / n, forecast month k % n + 1 and the calendar month k % n months after May 2010 |
| Submission.CreateSubmissionTable | tadpole/submission.py:7-53 | one row per subject and month, subject-major, with subject, month number and date as the layout says, and every forecast column empty |
| Validation.Lb2Rids | tadpole/validation.py:13 | a subject is listed iff some row flags it with LB2 = 1 |
| Validation.InsertUnique | tadpole/validation.py:17 | keeps the sequence strictly increasing and adds exactly the value |
| Validation.Unique | tadpole/validation.py:17 | `numpy.unique`: strictly increasing, with exactly the values of the input |
| Validation.TestSubjects | tadpole/validation.py:13-17 | the test subjects ascend without repeats, and a subject is among them iff some row flags it with LB2 = 1 |
| Validation.IncreasingByElements | tadpole/validation.py:17 | a strictly increasing sequence is determined by its set of values |
| Validation.TestSubjectsIgnoreOrder | tadpole/validation.py:13-17 | reordering the table's rows does not change the test subjects |
| Ranking.Insert | notebooks/tadpole_metrics.py:44 | keeps the sequence ascending and adds exactly the point |
| Ranking.StableSort | notebooks/tadpole_metrics.py:44 | `sorted(key=...)`: ascending and a permutation of the input |
| Ranking.InsertKeepsKeyOrder | notebooks/tadpole_metrics.py:44 | inserting a point appends it to the points of its key and leaves the other keys alone |
| Ranking.StableSortIsStable | notebooks/tadpole_metrics.py:44 | for every key, the sorted sequence lists the points of that key in input order |
| Ranking.CountStableSort | notebooks/tadpole_metrics.py:46-47 | sorting does not change the class counts |
| Ranking.RankSumIsPairCount | notebooks/tadpole_metrics.py:48-50 | twice the rank sum is n0 (n0 + 1) plus twice the number of pairs ranked with the other class below |
| Ranking.PairsBelowBound | notebooks/tadpole_metrics.py:50 | there are at most n0 times (length - n0) such pairs |
| Ranking.OthersAreOnes | notebooks/tadpole_metrics.py:43-47 | with two classes, the points not of the first class are of the second |
| Metrics.ProbAt | notebooks/tadpole_metrics.py:43 | Python list indexing, negative from the end, failing outside the list |
| Metrics.Expand | notebooks/tadpole_metrics.py:43 | only instances of the two classes are kept, at most as many as the input |
| Metrics.RankStatistic | notebooks/tadpole_metrics.py:46-50 | defined iff both classes occur; equation 3 equals the fraction of mixed pairs with the other class ranked lower, in [0, 1] |
| Metrics.AValue | notebooks/tadpole_metrics.py:17-50 | `a_value`: when defined, it lies in [0, 1] |
| Metrics.RankFraction | notebooks/tadpole_metrics.py:50 | equation 3 rewritten as a pair count over n0 n1, at most 1 |
| Metrics.ExpandDefined | notebooks/tadpole_metrics.py:43 | the expansion succeeds iff every kept instance has a probability at the index of class 0 |
| Metrics.ExpandCount | notebooks/tadpole_metrics.py:43-47 | a compared class has points after expansion iff it occurs in the data |
| Metrics.AValueDefined | notebooks/tadpole_metrics.py:43-50 | defined iff every kept instance can be indexed and both classes occur |
| Metrics.AValueIgnoresOtherClasses | notebooks/tadpole_metrics.py:43 | an instance of neither class changes nothing |
| Metrics.AValueOnlyUsesZeroProbability | notebooks/tadpole_metrics.py:43 | only the classes and the class-0 probabilities matter |
| Metrics.PermutationRow | notebooks/tadpole_metrics.py:80 | the pairs (i, j') for j' from j up, skipping i |
| Metrics.PermutationsFrom | notebooks/tadpole_metrics.py:80 | every ordered pair of distinct classes whose first class is i or more |
| Metrics.Permutations | notebooks/tadpole_metrics.py:80 | `itertools.permutations(range(n), 2)`: n (n - 1) pairs, all pairs of distinct classes below n |
| Metrics.AValues | notebooks/tadpole_metrics.py:80 | the A-value of each pair, in order |
| Metrics.SumDefined | notebooks/tadpole_metrics.py:80 | the sum is defined iff every A-value is |
| Metrics.SumDefinedBounds | notebooks/tadpole_metrics.py:80 | a sum of values in [0, 1] lies in [0, count] |
| Metrics.ClassCount | notebooks/tadpole_metrics.py:75-76 | the given count, or one less than the length of the first probability vector, failing with no data |
| Metrics.MAUC | notebooks/tadpole_metrics.py:53-82 | when defined it lies in [0, 1] and the class count is neither 0 nor 1 |
| Metrics.PairAverage | notebooks/tadpole_metrics.py:82 | the average is defined exactly when the sum of A values is and n is neither 0 nor 1 (where the division by n (n - 1) fails); a sum in [0, n (n - 1)] gives a value in [0, 1] |
| Metrics.MAUCTwoClasses | notebooks/tadpole_metrics.py:80-82 | with two classes MAUC is the mean of the two directed A-values |
| Metrics.MAUCDefaultIgnoresTopClass | notebooks/tadpole_metrics.py:75-80 | without a class count, an instance of the highest class index does not change MAUC |
| Metrics.Matches | notebooks/tadpole_metrics.py:91-94 | the count of items estimated e with truth t, positive iff there is one |
| Metrics.Rate | notebooks/tadpole_metrics.py:98-106 | hits / (hits + misses), 0.5 when both are 0, always in [0, 1] |
| Metrics.PairBCA | notebooks/tadpole_metrics.py:91-108 | the pair score as written lies in [0, 1] |
| Metrics.RowScores | notebooks/tadpole_metrics.py:89-109 | the inner loop yields one score per class above c0 |
| Metrics.SumBounds | notebooks/tadpole_metrics.py:111 | a sum of values in [lo, hi] lies between count * lo and count * hi |
| Metrics.Mean | notebooks/tadpole_metrics.py:111 | `np.mean`: defined iff the list is non-empty |
| Metrics.MeanBounds | notebooks/tadpole_metrics.py:111 | the mean of values in [lo, hi] lies in [lo, hi] |
| Metrics.ScoresBeforeCount | notebooks/tadpole_metrics.py:88-89 | the first c0 rows hold c0 (2n - c0 - 1) / 2 scores |
| Metrics.BCAScoresFacts | notebooks/tadpole_metrics.py:88-109 | there are n (n - 1) / 2 pair scores, one at least iff n >= 2, each in [0, 1] |
| Metrics.CalcBCA | notebooks/tadpole_metrics.py:85-111 | the loops give the mean of the pair scores; defined iff there are at least two classes; in [0, 1] |
| Metrics.PairScoresFrom | notebooks/tadpole_metrics.py:89-109 | the inner loop appends exactly the row of pair scores |
| Metrics.PairBCANoForecast | notebooks/tadpole_metrics.py:96-106 | when neither class is ever estimated both rates fall back to 0.5 |
| Metrics.BCANoForecastInRange | notebooks/tadpole_metrics.py:96-111 | when no class below n is ever estimated the score is 0.5 |
| Metrics.BalancedPairAccuracy | notebooks/tadpole_metrics.py:90-108 | the pair score with the true sensitivity and specificity, in [0, 1] |
| Metrics.ConstantGuessScoresHalf | notebooks/tadpole_metrics.py:90-108 | always guessing c0, when both classes occur, scores exactly chance level |
| Metrics.PairBCAConstantGuessCounterexample | notebooks/tadpole_metrics.py:91-108 | as written, estimates [0, 0, 0] against truths [0, 0, 1] score 7/12, not 1/2 |
| Metrics.Weight | notebooks/tadpole_metrics.py:116 | `1 / (upper - lower)`: positive for a proper interval |
| Metrics.WES | notebooks/tadpole_metrics.py:114-117 | defined only when no interval has zero width |
| Metrics.WeightSumPositive | notebooks/tadpole_metrics.py:117 | proper intervals have a positive total weight |
| Metrics.WeightedErrorSumAtLeast | notebooks/tadpole_metrics.py:117 | errors of at least lo give a weighted sum of at least lo times the total weight |
| Metrics.WeightedErrorSumAtMost | notebooks/tadpole_metrics.py:117 | errors of at most hi give a weighted sum of at most hi times the total weight |
| Metrics.WESIsWeightedAverage | notebooks/tadpole_metrics.py:114-117 | with proper intervals the score is defined and lies between the smallest and largest absolute error |
| Metrics.ExactEstimatesNoError | notebooks/tadpole_metrics.py:117 | exact estimates give a zero weighted error sum |
| Metrics.WESExactIsZero | notebooks/tadpole_metrics.py:114-117 | exact estimates score 0 whenever the score is defined |
| Metrics.Covered | notebooks/tadpole_metrics.py:122 | the number of covered items is at most the number of items |
| Metrics.CPA | notebooks/tadpole_metrics.py:120-123 | defined iff there are items; in [0, 0.5]; 0 iff exactly half the true values lie strictly inside their intervals |

## Left out

- Reading and writing CSV files, and the `'%Y-%m'` formatting of forecast dates (tadpole/io.py:35,72-81). Files are outside the model.
- The string-to-integer coercion with `np.int` (tadpole/io.py:38-44). It is dtype plumbing.
- Pandas `groupby`/`apply`, index alignment and multi-index reshaping (tadpole/io.py:19-23,61-67). The model computes one subject at a time (`Loading.SubjectVisits`).
- The calendar conversion of `pd.to_datetime` and the subtraction of 1 January 2000 (tadpole/io.py:55-56). Exam dates enter the model as day numbers.
- The driver script `tadpole/forecast-simple.py`. It is not part of this model.
- IEEE floating point: rounding, NaN and infinity. All arithmetic is exact over the reals. Wherever the source yields NaN or infinity, or raises, the model gives `None`.
- Loading.VentriclesICV: a zero intracranial volume gives `None`, where pandas gives infinity or NaN.
- Loading.AgeInt: `astype(int)` of a missing (NaN) age is not modelled. The function takes a present age.
- LeastSquares.PolyFit: the singular-value cut-off `rcond` and polyfit's `RankWarning` are not modelled. Points that are nearly collinear in x are treated by the exact determinant.
- Submission.AddMonths: `relativedelta`'s clamping of the day to the month's length is not modelled. The forecast dates are always the first of the month, so the clamping never applies there.
- Metrics.CalcBCA: the labels are integers compared exactly. NumPy broadcasting of mismatched shapes is not modelled; the two label lists must have equal length.
- Metrics.WES: only the zero-width case is singled out. For intervals with upper < lower, the sign of the weights is not constrained.
- Metrics.WES, Metrics.CPA: the four arrays must have equal length. NumPy's error on mismatched lengths, and its broadcasting of length-1 arrays, are not modelled (notebooks/tadpole_metrics.py:116-117,122).
- Submission.CreateSubmissionTable: the forecast count is a `nat`. The error `numpy.repeat` raises for a negative count is not modelled (tadpole/submission.py:40).
- SimpleModel.CreatePrediction and LinearModel.CreatePrediction: the row order the unstable `sort_values` picks among visits on one date is left open. It is a date ordering chosen by the method; no particular sorting algorithm is fixed.

## Findings

| source | as written | input that shows it | evidently intended | confidence | as-written member | corrected member |
|---|---|---|---|---|---|---|
| notebooks/tadpole_metrics.py:91-106 | `sensitivity = TP/(TP+FN)` with FN counting items estimated c0 whose truth is c1, and `specificity = TN/(TN+FP)` with FP counting items estimated c1 whose truth is c0. These are the positive and negative predictive values, not sensitivity and specificity. | estimates [0, 0, 0] against truths [0, 0, 1], classes 0 and 1: as written 7/12 | sensitivity TP / (TP + #(estimated c1, truth c0)) and specificity TN / (TN + #(estimated c0, truth c1)), each 0.5 when its denominator is 0, with items estimated as neither class left aside as in the source; a constant guess of c0 then scores 1/2 | medium, not executed | Metrics.PairBCAConstantGuessCounterexample | Metrics.ConstantGuessScoresHalf |

`Metrics.CalcBCA` keeps the arithmetic as written. That score is the one the challenge reports, so the model computes it unchanged. The corrected pair score is `Metrics.BalancedPairAccuracy`, and `Metrics.ConstantGuessScoresHalf` proves chance level for it.
