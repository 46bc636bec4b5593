# Wind-turbine transform stage in Dafny

This project models the transform stage of the wind-turbine feed pipeline
(`data-engineering/wind-turbine-pipeline/wind_pipeline.py`) and proves
properties of it. The stage has three table operations:

- **cleaning** (`clean_data`) takes the concatenated raw feed. It removes
  exact duplicate rows, parses timestamps, and drops rows without a turbine
  or a usable instant. It fills a missing power value with the turbine's
  median and drops turbines with no value at all. It then removes rows
  outside the widened percentile fence `[0.5 q01, 1.5 q99]` of their turbine
  and sorts by (turbine, timestamp).
- **daily statistics** (`calculate_daily_stats`) gives the minimum, maximum
  and mean power of every (turbine, calendar day) group.
- **anomaly detection** (`detect_anomalies`) flags a row whose power lies
  more than two sample standard deviations from its own day's mean. A
  missing or zero deviation never flags.

Rows are immutable datatypes in sequences, and nulls are `Option`. Power
values are `real`. A timestamp is an instant in UTC seconds, and its day is
the floor of the instant divided by 86400. Timestamp parsing is a parameter
`parse: string -> Option<int>`, with `None` for text that does not parse.
Turbine identifiers are modelled as strings ordered by code point, which
is how the sort orders them when the feeds load them as text.

Modules, in dependency order:

| file | module | contents |
|---|---|---|
| options.dfy | `Options` | `Option` |
| seqs.dfy | `Seqs` | filter, filter-map, first-occurrence de-duplication |
| readings.dfy | `Readings` | row types, identifier order, day grouping |
| sorting.dfy | `Sorting` | insertion sorts of values, rows and day keys |
| arith.dfy | `RealArith` | products and squares of reals |
| stats.dfy | `Stats` | sum, mean, min, max, sample variance, median, interpolated quantile |
| cleaning.dfy | `Cleaning` | the cleaning stage and its properties |
| daily_stats.dfy | `DailyStats` | the daily summary |
| anomalies.dfy | `Anomalies` | the two-sigma rule |

All paths below are relative to the repository root.

## Model

| member | source | states |
|---|---|---|
| Seqs.Dedup | data-engineering/wind-turbine-pipeline/wind_pipeline.py:92 | keeps exactly the values of the table, once each: no duplicates, as many rows as distinct rows |
| Seqs.DedupIdempotent | data-engineering/wind-turbine-pipeline/wind_pipeline.py:92 | removing duplicates a second time removes nothing |
| Seqs.FilterMapMultiplicity | data-engineering/wind-turbine-pipeline/wind_pipeline.py:101-106 | a row-wise map that may drop rows gives each result as often as rows map to it, so row-for-row steps keep multiplicities |
| Seqs.FilterMapCount | data-engineering/wind-turbine-pipeline/wind_pipeline.py:101-106 | the results and the dropped rows together number exactly the input rows |
| Seqs.Filter | data-engineering/wind-turbine-pipeline/wind_pipeline.py:120-121 | a row survives the mask with its multiplicity exactly when the mask holds of it |
| Readings.DayOf | data-engineering/wind-turbine-pipeline/wind_pipeline.py:144 | the day of an instant is the unique d with d·86400 ≤ instant < (d+1)·86400 |
| Readings.StrLessTrichotomy | data-engineering/wind-turbine-pipeline/wind_pipeline.py:124 | any two turbine identifiers are ordered one way or the other, or are equal |
| Readings.DayKeyLeAntisymmetric | data-engineering/wind-turbine-pipeline/wind_pipeline.py:146-149 | two day keys each before the other are the same key |
| Sorting.SortRows | data-engineering/wind-turbine-pipeline/wind_pipeline.py:124 | the result is ordered by (turbine, timestamp) and is a permutation of the input |
| Sorting.SortKeys | data-engineering/wind-turbine-pipeline/wind_pipeline.py:146-149 | the group keys come out in (turbine, day) order, as a permutation of the keys handed in |
| Sorting.SortReals | data-engineering/wind-turbine-pipeline/wind_pipeline.py:101 | the values of a group in ascending order, as a permutation |
| Stats.Median | data-engineering/wind-turbine-pipeline/wind_pipeline.py:101 | the median is missing exactly for an empty group and lies between the group's minimum and maximum |
| Stats.MedianIsHalfQuantile | data-engineering/wind-turbine-pipeline/wind_pipeline.py:101-112 | the middle-value median equals the linearly interpolated 0.5-quantile |
| Stats.Quantile | data-engineering/wind-turbine-pipeline/wind_pipeline.py:111-112 | the q-quantile is missing exactly for an empty group and lies between the minimum and maximum |
| Stats.QuantileMonotone | data-engineering/wind-turbine-pipeline/wind_pipeline.py:111-112 | a higher level never gives a lower quantile, so q01 ≤ q99 |
| Stats.QuantileOfSingleton | data-engineering/wind-turbine-pipeline/wind_pipeline.py:111-112 | every quantile of a one-value group is that value |
| Stats.SampleVariance | data-engineering/wind-turbine-pipeline/wind_pipeline.py:181 | the sample variance is defined exactly for two or more values and is never negative |
| Stats.VarianceZeroIffAllEqual | data-engineering/wind-turbine-pipeline/wind_pipeline.py:187-192 | a group of two or more values has zero variance exactly when all its values are equal |
| Stats.Mean | data-engineering/wind-turbine-pipeline/wind_pipeline.py:148 | the mean taken as many times as there are values gives their sum; `Stats.MeanBetweenMinAndMax` bounds it |
| Stats.MeanBetweenMinAndMax | data-engineering/wind-turbine-pipeline/wind_pipeline.py:148 | the mean of a group lies between its minimum and maximum |
| Stats.FewBeyondTwoStd | data-engineering/wind-turbine-pipeline/wind_pipeline.py:179-194 | with positive variance, four times the number of values beyond two standard deviations is less than n − 1 |
| Cleaning.Keyed | data-engineering/wind-turbine-pipeline/wind_pipeline.py:92-98 | duplicates are removed before parsing, so there are no more keyed rows than distinct raw rows; `Cleaning.KeyedRowOrigin`, `Cleaning.KeyedRowKept` and `Cleaning.KeyedRowForRow` state which rows pass |
| Cleaning.Imputed | data-engineering/wind-turbine-pipeline/wind_pipeline.py:101-106 | imputation never adds rows, and every row with a known power value survives it with that value; `Cleaning.ImputedRowOrigin` states where every imputed row comes from and `Cleaning.ImputedRowForRow` that it is row for row |
| Cleaning.FenceOf | data-engineering/wind-turbine-pipeline/wind_pipeline.py:109-117 | a turbine has a fence exactly when the table has a row of it; `Cleaning.FenceWidensBand` relates the fence to q01 and q99 |
| Cleaning.InFence | data-engineering/wind-turbine-pipeline/wind_pipeline.py:118-120 | a row inside a fence belongs to a turbine present in the table; a turbine missing from the fence table fails the comparison |
| Cleaning.Fenced | data-engineering/wind-turbine-pipeline/wind_pipeline.py:120-121 | the mask keeps a sub-multiset of the rows: a row survives exactly when it lies in its turbine's fence over the rows handed in; `Cleaning.CleanedRowInFence` states the bounds |
| Cleaning.CleanData | data-engineering/wind-turbine-pipeline/wind_pipeline.py:71-124 | the output is sorted by (turbine, timestamp); it holds each imputed row inside its fence with that row's multiplicity and no other row; it has at most as many rows as there are distinct raw rows |
| Cleaning.CleanedRowsAreFencedRows | data-engineering/wind-turbine-pipeline/wind_pipeline.py:106-121 | a row is in the output exactly when it is an imputed row inside its turbine's fence |
| Cleaning.KeyedRowOrigin | data-engineering/wind-turbine-pipeline/wind_pipeline.py:92-98 | every row past the key filter is a raw row with a turbine and a timestamp that parses |
| Cleaning.KeyedRowKept | data-engineering/wind-turbine-pipeline/wind_pipeline.py:92-98 | every raw row with a turbine and a parseable timestamp has its keyed form past the filter, whatever the other rows are |
| Cleaning.KeyedRowForRow | data-engineering/wind-turbine-pipeline/wind_pipeline.py:92-98 | the keyed rows and the distinct raw rows lacking a turbine or a parseable timestamp together number exactly the distinct raw rows |
| Cleaning.ImputedRowForRow | data-engineering/wind-turbine-pipeline/wind_pipeline.py:101-106 | imputation yields one row per keyed row except those whose power is missing on a turbine with no known value, which it drops; the two counts add up to the keyed rows |
| Cleaning.ImputedRowOrigin | data-engineering/wind-turbine-pipeline/wind_pipeline.py:101-106 | every imputed row keeps its keyed row's turbine, instant and source file, and keeps its power value or takes the turbine median for a missing one |
| Cleaning.CleanedRowOrigin | data-engineering/wind-turbine-pipeline/wind_pipeline.py:92-121 | every cleaned row is accounted for by a raw row: same turbine and source file, a timestamp text that parses to its instant, and the same power value or, for a missing one, the turbine median |
| Cleaning.MissingOutputTakesMedian | data-engineering/wind-turbine-pipeline/wind_pipeline.py:101-102 | a missing power value on a turbine with a known value is replaced by the median of the known values |
| Cleaning.KnownOutputKept | data-engineering/wind-turbine-pipeline/wind_pipeline.py:102 | a known power value passes imputation unchanged |
| Cleaning.KnownOutputsNonEmptyIff | data-engineering/wind-turbine-pipeline/wind_pipeline.py:101-106 | a turbine has known values exactly when one of its rows carries a power value |
| Cleaning.AllMissingTurbineDropped | data-engineering/wind-turbine-pipeline/wind_pipeline.py:104-106 | a turbine whose power values are all missing has no row after imputation |
| Cleaning.AllMissingTurbineAbsent | data-engineering/wind-turbine-pipeline/wind_pipeline.py:98-106 | a turbine whose raw rows all lack power contributes no row to the cleaned table |
| Cleaning.CleanedRowInFence | data-engineering/wind-turbine-pipeline/wind_pipeline.py:111-120 | every cleaned row lies in [0.5 q01, 1.5 q99] of its turbine, with the quantiles taken after imputation and before fencing |
| Cleaning.SingleReadingFence | data-engineering/wind-turbine-pipeline/wind_pipeline.py:111-120 | a turbine with one reading keeps it exactly when it is not negative |
| Cleaning.SingleReadingKept | data-engineering/wind-turbine-pipeline/wind_pipeline.py:98-124 | the same holds for the whole cleaning of a raw table |
| Cleaning.FenceWidensBand | data-engineering/wind-turbine-pipeline/wind_pipeline.py:109-115 | for non-negative values the fence contains the band [q01, q99] |
| Cleaning.BandRowKept | data-engineering/wind-turbine-pipeline/wind_pipeline.py:111-120 | a row between its turbine's q01 and q99 survives, when the values are not negative |
| Cleaning.CleanDataIsFenced | data-engineering/wind-turbine-pipeline/wind_pipeline.py:111-124 | as a collection of rows, the cleaned table is the fenced table; the sort only reorders |
| Cleaning.CompleteRowCleaned | data-engineering/wind-turbine-pipeline/wind_pipeline.py:92-124 | a raw row with every cell present and parseable, whose reading lies in its turbine's fence, is in the cleaned table, whatever the other raw rows are |
| Cleaning.CompleteRowsReachFence | data-engineering/wind-turbine-pipeline/wind_pipeline.py:92-106 | distinct raw rows with every cell present and parseable reach the fence unchanged and in order |
| Cleaning.FenceNotIdempotent | data-engineering/wind-turbine-pipeline/wind_pipeline.py:111-120 | readings 1, 200 and 30000 are fenced to 200 and 30000, and those again to 30000 |
| Cleaning.CleanerNotIdempotent | data-engineering/wind-turbine-pipeline/wind_pipeline.py:71-124 | cleaning the raw form of a cleaned table removes a further row |
| Cleaning.ImputationCanDuplicate | data-engineering/wind-turbine-pipeline/wind_pipeline.py:92-106 | two distinct raw rows can clean to two identical rows, because de-duplication precedes imputation |
| DailyStats.Groups | data-engineering/wind-turbine-pipeline/wind_pipeline.py:146-149 | the groups are exactly the (turbine, day) keys of the rows, each once, in strictly ascending order |
| DailyStats.CalculateDailyStats | data-engineering/wind-turbine-pipeline/wind_pipeline.py:132-151 | one record for each distinct (turbine, day) key of the input and no other, in strictly ascending key order |
| DailyStats.GroupStat | data-engineering/wind-turbine-pipeline/wind_pipeline.py:146-150 | the record of a group carries the group's key and summarises a non-empty group; `DailyStats.DailyStatDescribesGroup` states what its minimum, maximum and average are |
| DailyStats.DailyStatDescribesGroup | data-engineering/wind-turbine-pipeline/wind_pipeline.py:146-150 | a record's minimum and maximum are values of its group bounding all others; its average is the group mean; min ≤ avg ≤ max |
| DailyStats.RowWithinDailyRange | data-engineering/wind-turbine-pipeline/wind_pipeline.py:144-150 | every input row falls within the minimum and maximum of its own group's record |
| DailyStats.ConstantDayStat | data-engineering/wind-turbine-pipeline/wind_pipeline.py:146-150 | a day with one repeated value has that value as min, max and average |
| Anomalies.ToleranceOf | data-engineering/wind-turbine-pipeline/wind_pipeline.py:186-192 | the tolerance is bounded exactly when the variance is present and not zero |
| Anomalies.Exceeds | data-engineering/wind-turbine-pipeline/wind_pipeline.py:186-194 | only a bounded tolerance can be exceeded, and a zero deviation never exceeds one; `Anomalies.ExceedsAgreesWithStd` equates it with the written test |
| Anomalies.IsAnomaly | data-engineering/wind-turbine-pipeline/wind_pipeline.py:177-194 | a flagged row's day has two or more readings and a positive sample variance; `Anomalies.GroupVerdicts` gives the verdict in both directions |
| Anomalies.ExceedsAgreesWithStd | data-engineering/wind-turbine-pipeline/wind_pipeline.py:186-194 | the square-free test d² > 4v agrees with the written test, where a missing deviation counts as 0, a zero tolerance as infinite, and the test is abs(d) > 2·sd, for sd the non-negative root of v |
| Anomalies.DetectAnomalies | data-engineering/wind-turbine-pipeline/wind_pipeline.py:159-196 | one record per input row, in order, carrying the row unchanged and the UTC calendar day it was grouped by (the `date` column kept at lines 177 and 196); a flagged row's group has two or more rows, positive variance, and a squared deviation above four variances |
| Anomalies.FlaggedIffBeyondTwoStd | data-engineering/wind-turbine-pipeline/wind_pipeline.py:176-194 | a row is flagged exactly when the written test holds against its day's mean and sample standard deviation |
| Anomalies.GroupVerdicts | data-engineering/wind-turbine-pipeline/wind_pipeline.py:179-194 | within a group, a row is flagged exactly when the variance is present and non-zero and its squared deviation exceeds four variances |
| Anomalies.ConstantDayNotFlagged | data-engineering/wind-turbine-pipeline/wind_pipeline.py:186-192 | a day with one repeated value flags nothing |
| Anomalies.FewAnomaliesPerDay | data-engineering/wind-turbine-pipeline/wind_pipeline.py:176-196 | in a (turbine, day) group of n rows, the number flagged is 0 or less than (n − 1)/4 |
| Anomalies.SmallDayNotFlagged | data-engineering/wind-turbine-pipeline/wind_pipeline.py:176-196 | a day with at most five readings of a turbine, including a single reading, flags nothing; for example, values 5, 5, 5 and 50 have mean 16.25 and tolerance 45, and the 50, at 33.75 from the mean, is not flagged |
| Anomalies.SixthReadingFlagged | data-engineering/wind-turbine-pipeline/wind_pipeline.py:176-196 | readings 0, 0, 0, 0, 0, 6 in one day flag the 6 and nothing else, so the five-reading bound is tight |

## Behaviour of the code worth knowing

Each item below is something one might expect of the cleaner, next to what
the code does. The model follows the code.

- **Re-running the cleaner.** One might expect cleaning an already cleaned
  table to change nothing. The code recomputes the fence from whatever rows
  it is given (lines 111-120), so a second run can drop rows that the first
  run kept. `Cleaning.CleanerNotIdempotent` shows this for readings 1, 200
  and 30000. The first fence is [2.49, 44106] and keeps 200 and 30000. The
  fence over those two is [249, 44553], which drops 200. For the same
  reason, a cleaned row need not lie in the fence of the turbine's surviving
  rows. It lies in the fence of the rows before fencing
  (`Cleaning.CleanedRowInFence`).
- **Duplicate rows.** The docstring's first step is "drop duplicate rows"
  (line 77), and one might read that as a promise that the output has no two
  equal rows. The code removes duplicates at line 92, before imputation. So
  a row with no power value can take the turbine median and become a copy of
  a sibling row. `Cleaning.ImputationCanDuplicate` shows this.
- **The anomaly table's columns.** The docstring of `detect_anomalies`
  promises the original columns plus `is_anomaly` (line 168). The code adds
  a `date` column for grouping (line 177) and drops only the mean and the
  deviation at line 196, so `date` stays in the output. Each
  `Anomalies.AnomalyRecord` therefore carries the day with the row and its
  verdict.

## Left out

- Loading and concatenating the CSV feeds (lines 26-63), writing the
  outputs (204-224), and `main` with its dataset list (232-258): file-system
  I/O and orchestration.
- Sub-second precision: line 95 yields nanosecond instants, while the model
  counts whole seconds. Two texts less than a second apart parse to the
  same model instant, so the sort treats them as a tie and two cleaned rows
  the source keeps apart can become equal.
- The timestamp parser (line 95) is a parameter. Its text formats and
  time-zone handling are not modelled. The conversion at line 95 infers one
  format for the whole column, so whether a text parses can depend on the
  other rows of the table. A `parse` argument therefore stands for one
  conversion of one table. `Cleaning.CleanerNotIdempotent` uses one parser
  for two tables; this is faithful when both tables write their timestamps
  in the same format, as its example does.
- Floating point: power values are exact reals, and NaN is modelled as
  `None`. Rounding in the mean, variance and quantiles is not modelled. In
  particular, a constant day whose computed variance rounds away from zero
  is not modelled.
- Extra raw columns: the model carries turbine, timestamp, power and source
  file only. The column-order restoration of line 121 leaves these four
  fields unchanged, so it is not modelled separately. The de-duplication at
  line 92 compares every raw column: two rows that agree on the four
  modelled fields but differ in another column both survive in the source,
  while `Seqs.Dedup` keeps only one of them.
- The standard deviation is not computed: the model has no square root.
  `Anomalies.ExceedsAgreesWithStd` and `Anomalies.FlaggedIffBeyondTwoStd`
  take the deviation as an argument, constrained to be the non-negative root
  of the variance.
- Sorting.SortRows: the order of rows with equal (turbine, timestamp) keys
  is not stated. The contract gives the order by key and the permutation
  only. Both the multi-column sort of line 124 and the model's insertion sort
  keep such rows in input order, but the model does not prove it.
- Readings.StrLess: only string turbine identifiers are modelled. The source
  leaves the identifier's type to the CSV reader, so numeric identifiers
  are possible. These sort and group by number at lines 124 and 147, so
  2 comes before 10, while the model's code-point order puts "10" before "2".
- Cleaning.CleanerNotIdempotent: the second run is fed the raw form of the
  cleaned rows, and the result is stated as a multiset of rows. Writing a
  timestamp back to text is not modelled; the example uses a parser given as
  a precondition.
