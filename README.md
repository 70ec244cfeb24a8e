# THOR seizure tracker: a verified model of its core logic

THOR records seizure and pain events and derives statistics and forecasts from them:

- a small Flask service (`main.py`) appends logged events to CSV files and answers a 14-day countdown;
- a dashboard (`webpage/app.py`) summarises the seizure log;
- a PNES screening heuristic (`webpage/pnes_analyzer.py`) raises risk factors from simple indicators;
- a prediction pipeline (`Prediction/`) builds an hourly grid, labels it and derives features;
- the same pipeline forecasts risk, validates its past forecasts and appends to a long-term log.

This project models that core in Dafny and proves properties of it. Each source file has one module. The data transformations are functions. The loop-over-rows code is methods with loop invariants, proved against those functions. The objects that keep state (the CSV store, the output store, the feedback validator and the trigger analyzer) are classes.

| file | module | source |
|---|---|---|
| `clock.dfy` | `Clock` | timestamp arithmetic shared by all files |
| `seqs.dfy` | `Seqs` | pandas-like helpers over sequences |
| `grid.dfy` | `Grid` | `Prediction/main.py` loader and hourly grid |
| `dashboard.dfy` | `Dashboard` | `webpage/app.py` |
| `pnes.dfy` | `PnesAnalyzer` | `webpage/pnes_analyzer.py` |
| `tracker.dfy` | `Tracker` | `main.py` |
| `features.dfy` | `FeatureEngineering` | `Prediction/feature_engineering.py` |
| `forecaster.dfy` | `Forecaster` | `Prediction/main.py` feature and prediction steps |
| `outputs.dfy` | `Outputs` | `Prediction/main.py` and `Prediction/predict.py` output files |
| `preprocessing.dfy` | `Preprocessing` | `Prediction/data_preprocessing.py` |
| `feedback.dfy` | `Feedback` | `Prediction/prediction_feedback.py` |
| `predict.dfy` | `Predict` | `Prediction/predict.py` |
| `triggers.dfy` | `Triggers` | `Prediction/analyze_triggers.py` |

Representation choices:

- **Timestamps** are integer Unix seconds. Hour, day and weekday are computed arithmetically; Monday is 0, and 1970-01-01 was a Thursday.
- **Missing cells** (NaN, NaT, None) are `Option` values.
- **Unknowable inputs are parameters:** the wall clock ("now"), the trained models, and the statistics Dafny cannot compute exactly (standard deviation, variance, Pearson correlation, the Welch t-test, exponential decay).
- **Files** are in-memory values: a file is present with its lines, or missing. Reading and writing them is a field update.

Where the code and its documentation disagree, the model follows the code. Several such places are proved as lemmas:

- **PNES score line (`webpage/pnes_analyzer.py:110`):** it calls `.get` on float values. Every run that records a score raises (`NoWatchDataRaises`). A successful report therefore always has score 0 and band MINIMAL (`AnalyzePnesIndicators`).
- **Clustering factor (`webpage/pnes_analyzer.py:78`):** the factor guarded by `> 2.0` can never fire, because the ratio is at most 1 (`ClusteredPatternNeverFires`).
- **Prefix maxima in `Prediction/main.py` `predict`:** the 24/48/72-hour maxima come from three different models. Only the prefix maxima of one list are monotone (`PrefixMaxMonotone`), and the three figures can come out in any order (`HorizonsCanInvert`). In `Prediction/predict.py` all three horizons use the same model, so the order holds there when the three forecasts start in the same hour (`SameHourOrdered`).
- **`prepare_training_data` with horizon 0:** `iloc[:-0]` keeps no rows (`KeptRowsZeroHorizon`).
- **Duration of an hour with several seizures:** the two grid builders disagree when the last seizure in an hour has no duration. `Prediction/data_preprocessing.py` writes the missing value, while `Prediction/main.py` keeps the last present one (`LastMissingDurationDiffers`).
- **Empty seizure table in `_analyze_food_patterns`:** the share is divided by the seizure count before the guard, so an empty table raises (`FoodPatterns` is `None`; `AnalyzeAll` reports `false`).
- **`PredictionFeedback` before validation:** `validation_results` starts as `{}`, so asking for metrics, weights or the report first raises an AttributeError. This is modelled as an error result.
- **Eaten and Period flags in `Prediction/`:** the tracker writes Python's `True` and `False` into these columns (`main.py:120-121,138`). `read_csv` reads such a column as booleans, while the `.map` in both loaders (`Prediction/main.py:153-154`, `Prediction/data_preprocessing.py:45-46`) is keyed by the strings `'True'` and `'False'`. Every flag of a tracker-written file therefore becomes missing, and the trigger analysis counts no seizure with food (`Grid.BoolColumnMapsToMissing`, `Preprocessing.BoolFlagsLost`). The dashboard compares `astype(str)` and is not affected (`webpage/app.py:29-32`).
- **Dashboard durations:** `int(min_duration)` raises when no duration is present (`StatsRaise`, `ChartsRaise`).

## Model

| member | source | states |
|---|---|---|
| Clock.FloorHour | Prediction/main.py:94 | the floored hour is a whole hour at most t, and t is less than one hour past it |
| Clock.CeilHour | Prediction/main.py:95 | the ceiled hour is a whole hour at least t, less than one hour later, and equal to the floor or the floor plus an hour |
| Clock.FloorHourIff | Prediction/main.py:168 | a timestamp floors to whole hour h exactly when it lies in [h, h + 1 h) |
| Clock.FloorHourMonotone | Prediction/main.py:200 | flooring to the hour preserves order |
| Clock.HourOf | webpage/app.py:24 | the hour of day lies in 0..23 |
| Clock.Weekday | Prediction/feature_engineering.py:43 | the weekday lies in 0..6 |
| Clock.WholeDays | webpage/app.py:59 | the whole number of days d between two instants satisfies d days <= b - a < d + 1 days |
| Clock.CivilFromDays | Prediction/feature_engineering.py:44-45 | the proleptic Gregorian date of a day number has a month in 1..12 and a day in 1..31 |
| Clock.CivilRoundTrip | Prediction/feature_engineering.py:44-45 | converting a day number to its date and back gives the day number, so distinct days have distinct dates |
| Clock.YearOfEraRange | Prediction/feature_engineering.py:44-45 | within a 400-year era of 146097 days the year of the era is 0..399 and the day of that year 0..365 |
| Clock.MonthOf | Prediction/feature_engineering.py:45 | `.dt.month` lies in 1..12 |
| Clock.DayOfMonth | Prediction/feature_engineering.py:44 | `.dt.day` lies in 1..31 |
| Seqs.FFillSpec | Prediction/data_preprocessing.py:143 | forward fill with a limit keeps present cells; a missing cell gets a value exactly when a present value lies at most limit rows back, and then takes the latest such value |
| Seqs.MedianBetween | Prediction/analyze_triggers.py:297 | the median lies between the minimum and the maximum |
| Seqs.FreqTableSound | webpage/app.py:119 | every entry of a value-counts table is a key of the range with its positive count, and the keys ascend strictly |
| Seqs.FreqTableComplete | webpage/app.py:114 | every key of the range that occurs has an entry with its count |
| Seqs.FreqTableTotal | webpage/app.py:114-121 | the counts of a value-counts table add up to the number of keys in the range |
| Seqs.ZeroFilledTable | webpage/app.py:125 | the reindexed table has one entry per key of the range, in order, holding that key's count, zero when absent |
| Seqs.RoundHalfEven | Prediction/main.py:755-757 | Python's round gives the nearest integer, the even one on a tie |
| Seqs.Round1 | Prediction/main.py:755-757 | rounding to one decimal moves the value by at most 0.05 and leaves one decimal place |
| Seqs.Trunc | webpage/app.py:92-93 | `int()` truncates toward zero |
| Grid.MapFlag | Prediction/main.py:153-154 | the text "True" maps to true, the text "False" to false, and every other cell (a bool, a NaN, any other text) to missing, because the mapping's keys are strings |
| Grid.ReadFlagColumn | Prediction/main.py:148 | `read_csv` makes missing-value words (NULL included) NaN, turns the other cells of a column of true/false words into bools, and keeps any other column's cells as text |
| Grid.BoolColumnMapsToMissing | Prediction/main.py:148-154 | a flag column read as booleans maps to missing in every row |
| Grid.TextColumnMaps | Prediction/main.py:148-154 | a flag column read as text maps "True" to true, "False" to false and every other cell to missing |
| Grid.ReadSeizures | Prediction/main.py:148 | each read row keeps its line's time, duration and food, and takes its flag cells from its column's typing |
| Grid.CleanSeizure | Prediction/main.py:146-156 | a cleaned row keeps time, duration and food and maps both flags with MapFlag |
| Grid.LoadSeizures | Prediction/main.py:146-156 | the loaded table is a permutation of the cleaned rows, sorted by time |
| Grid.LoadSeizuresOrigin | Prediction/main.py:146-156 | every loaded row is the cleaned form of some raw row |
| Grid.PyMin3 | Prediction/main.py:88-89 | Python's min over three possibly-NaT timestamps: missing exactly when the first is missing, otherwise one of the present values and no greater than any of them |
| Grid.PyMax3 | Prediction/main.py:90-91 | the same for max |
| Grid.TimeExtent | Prediction/main.py:88-91 | one table's earliest and latest timestamps, both taken from the table and bounding every entry; missing for an empty table |
| Grid.Span | Prediction/main.py:88-91 | the global range is missing exactly when the first table is empty; otherwise it covers every non-empty table, and its ends are the minimum and the maximum of some table |
| Grid.SpanSkipsLaterEmpty | Prediction/main.py:88-91 | an empty table after the first does not affect the range |
| Grid.HourlyIndex | Prediction/main.py:93-97 | the index runs in one-hour steps from the floored start to the ceiled end |
| Grid.HourlyIndexCovers | Prediction/main.py:93-97 | every instant of the range has its floored hour in the index exactly once, at a computed position |
| Grid.AnyInHour | Prediction/main.py:199-202 | an hour is a seizure hour exactly when some seizure floors to it |
| Grid.Matches | Prediction/main.py:168-171 | the pain reports joined onto an hour are one per report falling in that hour |
| Grid.HourRows | Prediction/main.py:168-171 | a left join of one hour: when no report falls in the hour, the single row with no pain; otherwise exactly Matches, one row per report in that hour with its pain, every row carrying the hour |
| Grid.HourRowOrigin | Prediction/main.py:168-171 | every joined row carries its hour, and is either the empty row of an hour with no report or holds the pain of a report falling in that hour |
| Grid.HourRowsComplete | Prediction/main.py:168-171 | every report falling in the hour appears in the join with its pain |
| Grid.MergeLeft | Prediction/main.py:168-171 | the merged frame has at least one row per grid hour, holds only grid hours, and every grid hour appears in it |
| Grid.MergeLeftRows | Prediction/main.py:168-171 | every merged row comes from a report in its hour or is the empty row of an hour with no report, and every report whose hour is on the grid appears with its pain |
| Grid.MergeLeftOrdered | Prediction/main.py:168-171 | on an ascending grid the merged rows keep the grid order |
| Grid.MergeLeftOnePerHour | Prediction/main.py:168-171 | with at most one report per hour the merge keeps the grid row for row |
| Dashboard.Lower | webpage/app.py:29 | lower-casing maps each character and keeps the length |
| Dashboard.IsTrueCellIff | webpage/app.py:29-32 | a flag cell is true exactly when it spells 'true' in any letter case |
| Dashboard.KeptIndices | webpage/app.py:38 | the kept positions strictly increase, each holds a parsed timestamp, and every such position is listed |
| Dashboard.Parsed | webpage/app.py:18-38 | the k-th kept row is the line at the k-th position whose timestamp parsed, so every such line is kept once and in file order |
| Dashboard.SortDescending | webpage/app.py:41 | the sorted table is a permutation of its input with the most recent first |
| Dashboard.Load | webpage/app.py:9-46 | a table lacking a required column loads as empty; otherwise the load is a permutation of the parsed rows, most recent first |
| Dashboard.LoadRowOrigin | webpage/app.py:9-46 | every loaded row comes from a raw line with that timestamp and with its flags parsed from that line |
| Dashboard.RecentCount | webpage/app.py:82-84 | the recent count is the number of rows whose time is at most 7 days before now |
| Dashboard.DateRangeDays | webpage/app.py:59 | the range is the whole days between the first and last seizure, plus one, so at least 1 |
| Dashboard.CalculateStatistics | webpage/app.py:48-103 | an empty table gives no statistics; a table with no duration raises; otherwise the statistics are Summarize of the rows |
| Dashboard.Summarize | webpage/app.py:55-103 | the total is the row count; the date range is the whole days from the first to the last seizure plus one; the per-day and per-week rates are total / days and 7 * total / days rounded to two decimals; min and max duration are the truncated extremes of the present durations; the food and period counts count their rows; the recent count is the rows of the last 7 days; first and last day are those of the earliest and latest seizure |
| Dashboard.PerDay | webpage/app.py:59-62 | the per-day rate times the date range in days is the row count |
| Dashboard.StatisticsAverages | webpage/app.py:66-80 | the average duration is the mean of the present durations rounded to one decimal, within 0.05 of their range; a non-empty period or non-period partition gets the rounded mean of its own durations |
| Dashboard.StatisticsPartitions | webpage/app.py:71-76 | the food and no-food counts, and the period and non-period counts, each add up to the total |
| Dashboard.StatisticsRates | webpage/app.py:59-84 | the date range is at least one day, the per-day and per-week averages are total / days and 7 * total / days to within 0.005, and the recent count is at most the total |
| Dashboard.StatisticsExtremes | webpage/app.py:66-102 | the first day is not after the last, and the minimum duration is at most the maximum |
| Dashboard.EmptyPartitionAverage | webpage/app.py:79-80 | an empty period or non-period partition has average duration 0 |
| Dashboard.DailyFrequency | webpage/app.py:114-116 | the per-day table ascends by day, each entry holds that day's positive count, and the counts add up to the total |
| Dashboard.DailyFrequencyExact | webpage/app.py:114-116 | a day has an entry exactly when some seizure falls on it |
| Dashboard.HourFrequency | webpage/app.py:119-121 | the per-hour table ascends by hour within 0..23, each entry holds that hour's positive count, and the counts add up to the total |
| Dashboard.WeekdayFrequency | webpage/app.py:124-126 | the weekday table has exactly 7 entries, Monday to Sunday, entry i holding the number of seizures on weekday i, adding up to the total |
| Dashboard.PrepareChartData | webpage/app.py:105-161 | an empty table gives no charts, a table with no duration raises; otherwise the daily, hourly and weekday tables are those of the rows, the duration mean, median, min and max are those of the present durations, the food averages and counts are those of the two partitions, and the timeline is a most-recent-first permutation of the rows |
| Dashboard.BuildCharts | webpage/app.py:110-161 | the charts of a sorted non-empty table: its daily, hourly and weekday tables, the duration mean, median, min and max of its present durations, its food averages and counts, and a timeline that is a permutation of the rows |
| Dashboard.SpanTable | webpage/app.py:114-116 | a table over the span of the keys ascends by key and adds up to the number of keys |
| Dashboard.ChartsOrderFree | webpage/app.py:110-161 | rearranging the rows changes none of the tables, duration statistics or food averages |
| Dashboard.TablesOrderFree | webpage/app.py:114-126 | rearranging the rows changes none of the daily, hourly and weekday tables |
| Dashboard.DailyOrderFree | webpage/app.py:114-116 | rearranging the rows does not change the daily table |
| Dashboard.DurationsOrderFree | webpage/app.py:128-135 | rearranging the rows does not change the duration mean, median, min or max |
| Dashboard.FoodOrderFree | webpage/app.py:138-146 | rearranging the rows does not change a partition's size or average duration |
| PnesAnalyzer.AnalyzeDaytimePattern | webpage/pnes_analyzer.py:164-175 | the daytime count is the number of seizures with 7 <= hour < 23, the daytime and night counts add up to the total, and the share lies in [0, 100] |
| PnesAnalyzer.AnalyzeSleepTriggers | webpage/pnes_analyzer.py:242-256 | without seizures or watch rows the result is zero; otherwise the night count is the number of seizures at night and the correlation is its share |
| PnesAnalyzer.SleepComplementsDaytime | webpage/pnes_analyzer.py:248-252 | with watch data the sleep correlation is one minus the daytime share of line 166 |
| PnesAnalyzer.AnalyzePatternVariability | webpage/pnes_analyzer.py:178-196 | the count is the number of present durations, and the coefficient of variation is 0 below two durations or when the mean is not positive |
| PnesAnalyzer.AnalyzeFoodTriggers | webpage/pnes_analyzer.py:199-215 | the food and no-food counts are the sizes of the two partitions; each average is the mean duration of its partition, or 0 when it is empty; the trend reads 'higher_with_food' exactly when the food average is higher |
| PnesAnalyzer.Gaps | webpage/pnes_analyzer.py:224-225 | the gaps are the n - 1 differences of consecutive timestamps |
| PnesAnalyzer.AnalyzeSeizureClustering | webpage/pnes_analyzer.py:218-239 | the ratio lies in [0, 1]; fewer than three seizures give zero; otherwise the clustered gaps are counted among the n - 1 intervals and the ratio is their share |
| PnesAnalyzer.AnalyzePeriodCorrelation | webpage/pnes_analyzer.py:259-274 | the period and non-period counts partition the seizures and the correlation is the period share, in [0, 1] |
| PnesAnalyzer.PainDays | webpage/pnes_analyzer.py:145 | each pain reading is keyed by its calendar day |
| PnesAnalyzer.CommonDaysExact | webpage/pnes_analyzer.py:144-148 | a day is common exactly when it has both a seizure and a pain reading |
| PnesAnalyzer.SeizureCounts | webpage/pnes_analyzer.py:153 | the seizure counts are taken over the common days, in order |
| PnesAnalyzer.PainMeans | webpage/pnes_analyzer.py:154 | the pain values are the daily pain means over the common days, in order |
| PnesAnalyzer.AnalyzePainCorrelation | webpage/pnes_analyzer.py:138-161 | the correlation is 0 when either table is empty or fewer than three days are common |
| PnesAnalyzer.Classify | webpage/pnes_analyzer.py:115-122 | the bands are strict: above 70 HIGH, above 50 MODERATE, above 30 LOW, otherwise MINIMAL |
| PnesAnalyzer.ClassifyMonotone | webpage/pnes_analyzer.py:115-122 | a higher score never gets a lower band |
| PnesAnalyzer.AnyWritesScoreAppend | webpage/pnes_analyzer.py:33-106 | appending a factor makes the list write a score exactly when it already did or the new factor does |
| PnesAnalyzer.RecordFactor | webpage/pnes_analyzer.py:33-106 | one guarded append: the factor, if it fired, goes at the end of the list, and `scores` gains its entry exactly when that factor writes a score |
| PnesAnalyzer.CollectFactors | webpage/pnes_analyzer.py:29-106 | the collected list is the list of fired factors in source order, and `scores` is non-empty exactly when one of them writes a score |
| PnesAnalyzer.AnalyzePnesIndicators | webpage/pnes_analyzer.py:20-135 | an empty table reports 'No seizure data'; otherwise the run raises exactly when a fired factor writes a score, and a report has score 0, band MINIMAL and only factors that write no score |
| PnesAnalyzer.ScoreFactors | webpage/pnes_analyzer.py:108-122 | scoring raises exactly when a fired factor writes a score, and otherwise yields score 0 and band MINIMAL |
| PnesAnalyzer.ClusteredPatternNeverFires | webpage/pnes_analyzer.py:78-85 | the clustered-pattern factor never fires, because the ratio of lines 220-232 is at most 1 |
| PnesAnalyzer.NoWatchDataRaises | webpage/pnes_analyzer.py:89-96 | without watch data (lines 244-245) 'No Sleep Correlation' fires with score 1 and writes a score, so the score line 110 raises |
| PnesAnalyzer.FoodFactorIff | webpage/pnes_analyzer.py:68-73 | the food factor fires exactly when the food average exceeds 1.2 times the no-food average; its score is their ratio, or 1 when the no-food average is not positive |
| PnesAnalyzer.PainGuard | webpage/pnes_analyzer.py:140-151 | no pain data or fewer than three common days suppress the pain factor |
| PnesAnalyzer.VariabilityGuard | webpage/pnes_analyzer.py:182-183 | fewer than two present durations suppress the variability factor of line 57 |
| PnesAnalyzer.LowHormonalIff | webpage/pnes_analyzer.py:100 | 'Low Hormonal Pattern' fires exactly when fewer than 30 % of seizures are period-related |
| Tracker.Written | main.py:131-138 | writing a row appends it at the end of a present file, and creates a missing file with the header first |
| Tracker.WrittenAllPresent | main.py:131-138 | writing rows to a present file appends them in order |
| Tracker.WrittenAllMissing | main.py:131-138 | writing rows to a missing file gives the header followed by the rows |
| Tracker.CsvFile.constructor | main.py:130-138 | a store starts with the given header and file |
| Tracker.CsvFile.WriteRow | main.py:130-138 | the file becomes the written file |
| Tracker.SeizureRowAt | main.py:119-125 | the row's date and time of day together make up now, the duration and food text are the ones given, and each flag is true exactly when its answer is 'Yes' |
| Tracker.TrackSeizure | main.py:119-141 | the seizure row is appended (with a header if the file was missing) and the message names the duration |
| Tracker.TrackPain | main.py:143-162 | the pain row is appended with the current date and time, and the pain-logged message is returned |
| Tracker.CheckSeizureQuery | main.py:180-197 | the first missing parameter among duration, period and eaten is rejected; an accepted request forwards foodEaten only when eaten is not 'No', and logs the empty text when foodEaten is absent or eaten is 'No' |
| Tracker.SeizureRoute | main.py:178-201 | a rejected request leaves the file unchanged; an accepted one appends its row and reports the duration |
| Tracker.PainRoute | main.py:203-212 | a missing pain value is rejected with the file unchanged; any integer is logged |
| Tracker.CountdownMessage | main.py:227-232 | exactly one of three messages: overdue when negative, due in n days when positive, today when zero |
| Tracker.CountdownRoundTrip | main.py:227-232 | the message determines the countdown |
| Tracker.LineDate | main.py:222-223 | a line's first field parses as a date exactly when the line is not the header |
| Tracker.NextSeizure | main.py:214-237 | a missing file gives not-found, an empty file no data, a header-only last line a read failure, and otherwise the countdown is 14 minus the days since the last logged date |
| Tracker.LoggedTodayIsFullCycle | main.py:222-225 | right after logging a seizure the countdown is 14 days |
| Tracker.HeaderOnlyFails | main.py:222-237 | a file holding only the header fails to read |
| FeatureEngineering.IsWeekend | Prediction/feature_engineering.py:46 | is_weekend is 1 exactly when the weekday is Saturday or Sunday, and 0 otherwise |
| FeatureEngineering.IsWeekendWeekly | Prediction/feature_engineering.py:43-46 | is_weekend repeats every seven days |
| FeatureEngineering.SinceLast | Prediction/feature_engineering.py:64-72 | the value is -1 exactly when no earlier row is a seizure; otherwise it is the distance to the latest earlier seizure row |
| FeatureEngineering.HoursSinceLastSeizure | Prediction/feature_engineering.py:58-72 | the loop fills every row with SinceLast |
| FeatureEngineering.SinceLastBeforeFirst | Prediction/feature_engineering.py:64-72 | every row up to and including the first seizure holds -1 |
| FeatureEngineering.SinceLastOnSeizureRow | Prediction/feature_engineering.py:64-72 | a seizure row holds the gap to the previous seizure, not 0 |
| FeatureEngineering.RollingCount | Prediction/feature_engineering.py:75-77 | the rolling count is the number of seizure rows among the last min(w, i + 1) rows up to row i, so at most w and at most i + 1 |
| FeatureEngineering.RollingCountMonotone | Prediction/feature_engineering.py:75-77 | a wider window never counts fewer seizures |
| FeatureEngineering.RollingCountCountsCurrent | Prediction/feature_engineering.py:75-77 | the current row is inside its own window |
| FeatureEngineering.AvgTimeBetweenBounds | Prediction/feature_engineering.py:80-81 | the rolling mean of hours-since-last lies between -1 and the row index |
| FeatureEngineering.PainChange | Prediction/feature_engineering.py:119 | the difference is present exactly when this row and the previous row have pain, and it is their difference |
| FeatureEngineering.PainIncreasing | Prediction/feature_engineering.py:120 | pain_increasing is 1 exactly when the difference is present and positive |
| FeatureEngineering.PainRollingMaxCoversRow | Prediction/feature_engineering.py:112-116 | on a row with pain, the rolling maximum is present and at least that pain, and the rolling mean is present |
| FeatureEngineering.SearchFrom | Prediction/feature_engineering.py:188-192 | the inner loop stops at the first seizure at offset k or later, or at h + 1 when there is none |
| FeatureEngineering.HoursTo | Prediction/feature_engineering.py:186-192 | hours-to-seizure is the least k in 1..h with a seizure at row i + k, otherwise h + 1 |
| FeatureEngineering.HoursToBelowHorizon | Prediction/feature_engineering.py:181-192 | an hours-to-seizure below h implies a positive classification target |
| FeatureEngineering.KeptRows | Prediction/feature_engineering.py:195 | dropping the last h rows keeps max(0, n - h) rows when h > 0 |
| FeatureEngineering.KeptRowsHaveFullWindow | Prediction/feature_engineering.py:195 | every kept row has a full horizon after it |
| FeatureEngineering.KeptRowsZeroHorizon | Prediction/feature_engineering.py:195 | with horizon 0 no row is kept |
| FeatureEngineering.PrepareTrainingData | Prediction/feature_engineering.py:164-206 | the targets are 0/1 and 1 exactly when a seizure lies in rows i..i+h-1, hours-to-seizure is HoursTo, both have the kept length, and the feature columns are exactly the non-excluded ones |
| Forecaster.HarmonizedGrid | Prediction/main.py:88-99 | the grid is missing exactly when the watch table is empty; otherwise it steps by one hour, covers every timestamp of the three tables, starts at the floored hour of some timestamp and ends at the ceiled hour of some timestamp |
| Forecaster.PainAge | Prediction/main.py:177-185 | the age is 0 on a row with pain; otherwise, when present, it is the hours since the latest earlier pain row and at most 24, and it is missing only when there is no earlier pain row or that row is more than 24 hours back |
| Forecaster.LatestPainUnique | Prediction/main.py:177-185 | the latest earlier pain row is unique and is the one the backward search finds |
| Forecaster.PainAges | Prediction/main.py:174-187 | the loop builds one age per merged row |
| Forecaster.MergePain | Prediction/main.py:162-192 | the merged rows are the left join, the ages are PainAge and the pain column is forward-filled with limit 24 |
| Forecaster.LastPainIsLastPresent | Prediction/main.py:174-190 | the last pain row tracked by the loop is the last present cell of the pain column |
| Forecaster.AgeAgreesWithFill | Prediction/main.py:174-190 | on an hourly grid the age is present exactly when the forward fill yields a value |
| Forecaster.HourDuration | Prediction/main.py:199-204 | an hour's duration is 0 or the duration of a seizure in that hour |
| Forecaster.HourDurationLastWins | Prediction/main.py:199-204 | the last seizure in the hour with a present duration wins |
| Forecaster.MergeSeizures | Prediction/main.py:194-206 | each row's flag is AnyInHour and each row's duration is HourDuration |
| Forecaster.ContextualFeatures | Prediction/main.py:373-395 | Hours_Since_Last_Seizure is SinceLast on every row, and the four rolling counts are RollingCount over 24, 48, 72 and 168 rows |
| Forecaster.FutureTarget | Prediction/main.py:423-434 | Y_N is 1 exactly when a seizure lies in rows i+1..i+N, and 0 otherwise |
| Forecaster.FutureTargetMonotone | Prediction/main.py:423-434 | Y_24 <= Y_48 <= Y_72 on every row |
| Forecaster.LastRowTargetZero | Prediction/main.py:425 | the last row's target is 0 |
| Forecaster.FutureTargetShifted | Prediction/main.py:423-434 | the strictly-future window is the feature-engineering window shifted one row |
| Forecaster.CreateTargets | Prediction/main.py:414-436 | the loop fills Y_24, Y_48 and Y_72 with FutureTarget on every row |
| Forecaster.Imputed | Prediction/main.py:442-449 | imputation keeps a column's name, kind and length |
| Forecaster.ImputedSpec | Prediction/main.py:442-449 | non-numeric and protected columns are untouched, present cells are kept, and every missing cell of another numeric column gets the column's fill value |
| Forecaster.FillValueBetween | Prediction/main.py:448-449 | the fill value lies between the column's minimum and maximum |
| Forecaster.ImputeMissingValues | Prediction/main.py:438-451 | the loop imputes every column |
| Forecaster.FutureRow | Prediction/main.py:632-645 | a future row takes hour, weekday and weekend from its own hour, adds i + 1 to hours-since-last, and keeps the other features |
| Forecaster.Probabilities | Prediction/main.py:628-656 | exactly 72 probabilities, one per future hour |
| Forecaster.Template | Prediction/main.py:615-625 | the template is the last row at or before t_run, missing when there is none |
| Forecaster.Predict | Prediction/main.py:606-667 | the result is missing exactly when there is no run time or no template; otherwise the 24, 48 and 72 figures are the maxima of the first 24 and 48 values and of all 72, as percentages |
| Forecaster.Hourly | Prediction/main.py:628-656 | the loop builds the three probability lists |
| Forecaster.PrefixMaxMonotone | Prediction/main.py:659-661 | the maximum of a longer prefix of one list is at least that of a shorter prefix |
| Forecaster.HorizonsCanInvert | Prediction/main.py:650-661 | two different models can make the 24-hour figure exceed the 48-hour figure |
| Forecaster.WriteOutputs | Prediction/main.py:727-766 | the text is the three formatted lines and the log gains one entry |
| Outputs.OutputLines | Prediction/main.py:732-736 | three lines, for 24, 48 and 72 hours in that order, each a percentage rounded to one decimal |
| Outputs.NewEntry | Prediction/main.py:752-759 | the entry holds the run time and the three values rounded to one decimal |
| Outputs.Appended | Prediction/main.py:746-761 | the log keeps its existing entries unchanged and gains exactly one at the end |
| Outputs.AppendedRestarts | Prediction/main.py:746-750 | a missing or unreadable log restarts from an empty list |
| Outputs.AppendedTwice | Prediction/main.py:746-761 | two runs append their entries in order |
| Outputs.Store.constructor | Prediction/main.py:727-766 | a store starts with the given text and log |
| Outputs.Store.WriteOutputs | Prediction/main.py:727-766 | the text is overwritten with the lines and the log gains the new entry |
| Preprocessing.FillFood | Prediction/data_preprocessing.py:48-49 | a missing 'Food Eaten' becomes the empty string, and everything else is kept |
| Preprocessing.LoadSeizures | Prediction/data_preprocessing.py:34-52 | the loaded table is a time-sorted permutation of the raw rows with their food filled and flags mapped |
| Preprocessing.Cleaned | Prediction/data_preprocessing.py:40-49 | one cleaned row per raw row: flags mapped and the food cell filled with the empty text when missing |
| Preprocessing.BoolFlagsLost | Prediction/data_preprocessing.py:36-46 | when the Eaten and Period columns hold only true/false and missing-value words, as the tracker writes them, every loaded seizure has both flags missing and the trigger analysis counts no seizure with food |
| Preprocessing.LoadedSeizureOrigin | Prediction/data_preprocessing.py:34-52 | every loaded row comes from a raw row, with both flags mapped and the food filled |
| Preprocessing.LoadWatch | Prediction/data_preprocessing.py:54-76 | the watch table is a sorted permutation of its input |
| Preprocessing.LoadPain | Prediction/data_preprocessing.py:78-92 | the pain table is a sorted permutation of its input |
| Preprocessing.LastDuration | Prediction/data_preprocessing.py:128-132 | an hour without seizures keeps 0; otherwise it holds the duration of the chronologically last seizure in that hour, even a missing one |
| Preprocessing.MarkSeizures | Prediction/data_preprocessing.py:122-126 | each grid row's flag is AnyInHour |
| Preprocessing.MarkDurations | Prediction/data_preprocessing.py:128-132 | each grid row's duration is LastDuration |
| Preprocessing.DurationsAgree | Prediction/data_preprocessing.py:128-132 | when every duration in the hour is present, this builder agrees with the one in Prediction/main.py:199-204 |
| Preprocessing.LastMissingDurationDiffers | Prediction/data_preprocessing.py:128-132 | when the last seizure in an hour has no duration, this builder writes it as missing while Prediction/main.py:199-204 keeps the earlier value |
| Preprocessing.CreateHourlyDataset | Prediction/data_preprocessing.py:94-149 | no seizures means no dataset; otherwise one row per merged row over the hourly span, holding the flag, the last duration and the pain forward-filled with limit 24 |
| Preprocessing.JoinColumns | Prediction/data_preprocessing.py:134-143 | each merged row takes the flag and duration of its grid hour and its filled pain |
| Preprocessing.Locate | Prediction/data_preprocessing.py:124-125 | a grid hour's position is found |
| Preprocessing.SpanOfSeizures | Prediction/data_preprocessing.py:107-117 | when the watch and pain data lie within the seizures' range, the span is that range |
| Preprocessing.Closest | Prediction/data_preprocessing.py:180 | argmin gives the hour closest to the prediction, the first such hour on ties |
| Preprocessing.ClosestWithinHalfHour | Prediction/data_preprocessing.py:180 | inside the grid's range the closest hour is at most half an hour away |
| Preprocessing.Placed | Prediction/data_preprocessing.py:177-184 | a cell is set only from a prediction whose closest hour it is, and stays empty when none of those has a value |
| Preprocessing.PlacedLastWins | Prediction/data_preprocessing.py:177-184 | the last present value placed into an hour wins |
| Preprocessing.PlaceFeedback | Prediction/data_preprocessing.py:171-184 | the loop writes every feature column at every hour as Placed |
| Preprocessing.AddPredictionFeedbackFeatures | Prediction/data_preprocessing.py:151-198 | no feedback rows means no new columns; otherwise every column is placed, and the four recent_pred averages and deviations are forward-filled with limit 24 |
| Feedback.Occurred | Prediction/prediction_feedback.py:100-110 | a seizure occurred for a horizon exactly when one lies in the half-open window [t, t + h hours) |
| Feedback.OccurredMonotone | Prediction/prediction_feedback.py:100-110 | an occurrence within a shorter horizon is one within a longer horizon |
| Feedback.OccurredHalfOpen | Prediction/prediction_feedback.py:100-110 | the window includes its start and excludes its end |
| Feedback.Check | Prediction/prediction_feedback.py:112-119 | a check is correct exactly when 'above 50 %' agrees with the occurrence; the error is the distance between prob / 100 and the outcome (1 or 0), 0 only for a certain and right forecast, and at most 1 for a percentage |
| Feedback.FiftyPercentIsNo | Prediction/prediction_feedback.py:113-118 | exactly 50 % counts as 'no' |
| Feedback.Validated | Prediction/prediction_feedback.py:88-121 | each validation row keeps its prediction, and its check for each horizon is Check of that horizon's probability against an occurrence in that horizon's window |
| Feedback.ValidatedOccurredNested | Prediction/prediction_feedback.py:100-110 | a 24-hour occurrence implies a 48-hour one, which implies a 72-hour one |
| Feedback.Errors | Prediction/prediction_feedback.py:143 | the error column of a horizon has one entry per row |
| Feedback.Metrics | Prediction/prediction_feedback.py:136-146 | per horizon, the correct count is the number of correct rows, accuracy times total is the correct count, in [0, 1], and the mean absolute error times the row count is the sum of the errors |
| Feedback.MetricsErrorBounded | Prediction/prediction_feedback.py:119-143 | when probabilities are percentages the mean absolute error lies in [0, 1] |
| Feedback.OverallAccuracy | Prediction/prediction_feedback.py:264-270 | the overall accuracy lies in [0, 1] |
| Feedback.OverallIsMeanOfHorizons | Prediction/prediction_feedback.py:264-270 | the overall accuracy, total correct over 3n, is the mean of the three per-horizon accuracies |
| Feedback.AccuracyWeight | Prediction/prediction_feedback.py:231-234 | the weight lies in [0.5, 1]; it is 1 exactly when all three horizons are right and 0.5 exactly when all are wrong |
| Feedback.Recent | Prediction/prediction_feedback.py:178-182 | the recent window holds exactly the predictions in [t - 7 days, t) |
| Feedback.Features | Prediction/prediction_feedback.py:162-210 | each feature row keeps its prediction's time and has all eight feature slots |
| Feedback.FeaturesSpec | Prediction/prediction_feedback.py:178-208 | the averages are present exactly when the recent window is non-empty, and on an empty window the deviations and variance are missing too; the trend is Trend of the window's 24-hour percentages; the gap and spike are present from the second prediction on, the gap in hours and the spike the absolute change |
| Feedback.FeaturesStatistics | Prediction/prediction_feedback.py:184-197 | with a non-empty recent window the 24- and 48-hour averages are the means of its percentages, and the deviations and variance are the estimators applied to them |
| Feedback.Trend | Prediction/prediction_feedback.py:191-194 | the trend exists from two values on and, times one less than the count, is the last value minus the first |
| Feedback.FeatureRows | Prediction/prediction_feedback.py:162-212 | the loop builds one feature row per prediction |
| Feedback.RecentMeanBetween | Prediction/prediction_feedback.py:185 | the recent 24-hour average lies between the window's minimum and maximum |
| Feedback.RecentIsEarlier | Prediction/prediction_feedback.py:178-182 | on a chronological log, a prediction's recent window holds only earlier predictions |
| Feedback.PredictionFeedback.constructor | Prediction/prediction_feedback.py:15-32 | nothing is loaded and validation has not run |
| Feedback.PredictionFeedback.Load | Prediction/prediction_feedback.py:34-70 | the predictions are a time-sorted permutation of the log when it exists, and the seizure times are stored |
| Feedback.PredictionFeedback.Validate | Prediction/prediction_feedback.py:72-124 | validation runs exactly when both tables are loaded, and then holds one validated row per prediction |
| Feedback.PredictionFeedback.Refresh | Prediction/prediction_feedback.py:128-129 | an empty table is rebuilt by validating again, and a non-empty one is kept |
| Feedback.PredictionFeedback.GetMetrics | Prediction/prediction_feedback.py:126-148 | metrics raise exactly when validation never ran; otherwise they are the three per-horizon metrics, or none for an empty table |
| Feedback.PredictionFeedback.RecencyWeights | Prediction/prediction_feedback.py:214-240 | the weights are missing exactly when validation never ran, and otherwise are decay times accuracy weight per row |
| Feedback.PredictionFeedback.Report | Prediction/prediction_feedback.py:242-270 | the report raises exactly when validation never ran; after a run it is empty exactly when the table has no rows, and otherwise gives the overall accuracy, in [0, 1] |
| Feedback.PredictionFeedback.CreatePredictionFeatures | Prediction/prediction_feedback.py:150-212 | without a prediction log there are no features; otherwise one row per prediction |
| Predict.RiskOf | Prediction/predict.py:150-161 | the five bands partition the probabilities at 0.2, 0.4, 0.6 and 0.8, a boundary value going to the higher band |
| Predict.RiskMonotone | Prediction/predict.py:150-161 | a higher probability never gets a lower band |
| Predict.AlertAndBands | Prediction/predict.py:215-216 | against the bands of lines 150-161, the alert implies High or above, High or above implies the alert except at exactly 0.6, and 0.6 is High without an alert |
| Predict.RowAt | Prediction/predict.py:98-121 | a forecast row takes hour, weekday, day, month and weekend from its own timestamp, keeps the seizure counts, and measures hours since the last seizure |
| Predict.ForecastRows | Prediction/predict.py:96-123 | the loop builds one row per forecast hour |
| Predict.ForecastRowsConsecutive | Prediction/predict.py:82-123 | the forecast starts at now floored to the hour and advances one hour per row, and hours-since-last grows by one per row |
| Predict.FillMissing | Prediction/predict.py:134-135 | a missing value is filled with 0 |
| Predict.Filled | Prediction/predict.py:131-135 | filling keeps the calendar columns and every present cell, and puts 0 in each missing cell of hours-since-last, the past counts and the other columns |
| Predict.GetForecast | Prediction/predict.py:73-148 | no template gives no forecast; otherwise hours_ahead rows at consecutive hours, each with its model probability and risk band |
| Predict.MaxPercent | Prediction/predict.py:247-249 | the figure is the largest probability as a percentage |
| Predict.Run | Prediction/predict.py:237-295 | without a template nothing is written; otherwise the text is the three lines and the log gains one entry, and the figures are ordered when the three forecasts start in the same hour |
| Predict.SameHourOrdered | Prediction/predict.py:242-249 | forecasts starting in the same hour give max_24 <= max_48 <= max_72 |
| Predict.LongerForecastHigher | Prediction/predict.py:247-249 | a longer forecast that agrees on the shared hours has a maximum at least as high |
| Triggers.Hours | Prediction/analyze_triggers.py:62 | one hour of day per seizure, in 0..23 |
| Triggers.Weekdays | Prediction/analyze_triggers.py:63 | one weekday per seizure, in 0..6 |
| Triggers.Largest | Prediction/analyze_triggers.py:72-85 | nlargest keeps min(n, size) entries |
| Triggers.LargestSpec | Prediction/analyze_triggers.py:72-85 | the kept entries are a sub-bag of the table listed with non-increasing counts, and no dropped entry has a larger count than a kept one |
| Triggers.Keys | Prediction/analyze_triggers.py:84 | the index of a table, in order |
| Triggers.Peaks | Prediction/analyze_triggers.py:72-85 | at most m peak keys |
| Triggers.TemporalPatterns | Prediction/analyze_triggers.py:57-86 | at most 3 peak hours and 2 peak days |
| Triggers.TemporalDistributions | Prediction/analyze_triggers.py:67-77 | each table holds exactly the hours (weekdays) with seizures, once each in ascending order with its count, and adds up to the number of seizures |
| Triggers.PeaksAreBusiest | Prediction/analyze_triggers.py:72-85 | the peaks are distinct keys of the range that occur, listed with non-increasing counts, and each has a count at least that of any key left out |
| Triggers.PeaksOfTemporalPatterns | Prediction/analyze_triggers.py:72-85 | the peak hours and days are distinct, occur, come busiest first, and no hour or day left out is busier than a peak |
| Triggers.Column | Prediction/analyze_triggers.py:107 | a column of the frame, row by row |
| Triggers.PreWindowSpec | Prediction/analyze_triggers.py:101-106 | the window holds exactly the rows in [hour - h, hour), so the seizure hour itself is excluded |
| Triggers.WindowValueOrigin | Prediction/analyze_triggers.py:103-107 | each collected value comes from a present cell of a row in the window |
| Triggers.WindowValuesInColumn | Prediction/analyze_triggers.py:103-107 | the values collected from a window are present values of the column |
| Triggers.ConcatMember | Prediction/analyze_triggers.py:99-107 | a value is collected exactly when it is in some seizure's window |
| Triggers.PicksMember | Prediction/analyze_triggers.py:141-151 | a value is appended exactly when some seizure's window yields it |
| Triggers.MapTimes | Prediction/analyze_triggers.py:229-238 | one value per seizure, in order |
| Triggers.HeartRatesFromWindows | Prediction/analyze_triggers.py:99-107 | the pre-seizure heart rates are exactly the values of the six-hour windows |
| Triggers.CollectHeartRates | Prediction/analyze_triggers.py:99-107 | the loop collects the pre-seizure heart rates |
| Triggers.HeartRateFrom | Prediction/analyze_triggers.py:110-127 | a result exists exactly when the column exists and values were collected; the pre-seizure average is their mean, within their range; the normal average is the mean of the non-seizure heart rates, missing exactly when there are none; the p-value is the test of the two samples, significant exactly when below 0.05 |
| Triggers.PresentLast | Prediction/analyze_triggers.py:148-151 | the last present value is at a position after which every cell is missing |
| Triggers.LatestOfNone | Prediction/analyze_triggers.py:148-150 | there is no latest sleep exactly when the window has no sleep value |
| Triggers.LatestOfIsLatest | Prediction/analyze_triggers.py:148-151 | the latest sleep is the value of the last window row that has one |
| Triggers.SleepsBefore | Prediction/analyze_triggers.py:141-151 | at most one sleep per seizure |
| Triggers.SleepFromFrame | Prediction/analyze_triggers.py:141-151 | every collected sleep is a present value of the sleep column |
| Triggers.SleepsNeedReadings | Prediction/analyze_triggers.py:150-154 | collected sleeps imply a sleep column with values |
| Triggers.CollectSleeps | Prediction/analyze_triggers.py:141-151 | the loop collects the latest sleep of each 24-hour window |
| Triggers.SleepFrom | Prediction/analyze_triggers.py:154-173 | a result exists exactly when the column exists and sleeps were collected; the average before seizures is the mean of the sleeps, the overall average the mean of the column's values, and the poor-sleep count counts the sleeps below overall mean minus one deviation |
| Triggers.SleepAverageBetween | Prediction/analyze_triggers.py:169 | the average sleep before a seizure lies within the collected sleeps |
| Triggers.PainsBefore | Prediction/analyze_triggers.py:185-195 | at most one pain mean per seizure |
| Triggers.MeanPainInRange | Prediction/analyze_triggers.py:189-195 | a window's mean pain lies within the pain column's range |
| Triggers.MeanOfMembers | Prediction/analyze_triggers.py:195 | the mean of values drawn from a column lies within that column's range |
| Triggers.PainFromFrame | Prediction/analyze_triggers.py:185-195 | every collected pain mean lies within the pain column's range |
| Triggers.PainMeansInRange | Prediction/analyze_triggers.py:185-195 | all collected pain means lie within the pain column's range |
| Triggers.CollectPains | Prediction/analyze_triggers.py:185-195 | the loop collects the mean pain of each six-hour window that has pain |
| Triggers.PainFrom | Prediction/analyze_triggers.py:197-216 | a result exists exactly when the column exists and pains were collected; the average before seizures is the mean of the pain means, the overall average the mean of the column's values, and the high-pain count counts the means above overall mean plus one deviation |
| Triggers.PainAverageBetween | Prediction/analyze_triggers.py:212 | the average pain before a seizure lies within the collected means |
| Triggers.ActivityBefore | Prediction/analyze_triggers.py:229-238 | one activity total per seizure |
| Triggers.ActivityNonNegative | Prediction/analyze_triggers.py:233-236 | non-negative distances give non-negative window totals |
| Triggers.CollectActivity | Prediction/analyze_triggers.py:229-238 | the loop sums each six-hour window's activity |
| Triggers.ActivityFrom | Prediction/analyze_triggers.py:240-249 | a result exists exactly when the column exists and there are seizures; the pre-seizure average is the mean of the totals, within their range, and the overall average is six times the mean of the column's values, missing exactly when no row has activity |
| Triggers.AnalyzeFrame | Prediction/analyze_triggers.py:88-251 | the four frame analyses each give their specified result |
| Triggers.FoodPatterns | Prediction/analyze_triggers.py:253-277 | an empty table raises; otherwise the food count is the number of seizures with Eaten == True and the share is 100 times that count over the number of seizures |
| Triggers.FoodShareExtremes | Prediction/analyze_triggers.py:259-276 | the share is 100 exactly when every seizure ate, and 0 exactly when none did |
| Triggers.Gaps | Prediction/analyze_triggers.py:284-287 | n - 1 intervals for n >= 2, none otherwise, the i-th being the time from seizure i to seizure i + 1 in hours |
| Triggers.CollectIntervals | Prediction/analyze_triggers.py:284-287 | the loop collects the consecutive intervals in hours |
| Triggers.ChronologicalGapsNonNegative | Prediction/analyze_triggers.py:284-287 | a sorted table has non-negative intervals |
| Triggers.GapsTelescope | Prediction/analyze_triggers.py:284-287 | the intervals add up to the time from the first seizure to the last |
| Triggers.IntervalSummary | Prediction/analyze_triggers.py:289-302 | the summary is missing exactly when there are no intervals; otherwise min and max are actual intervals bounding every interval, the mean is their mean and the median their median, both between min and max |
| Triggers.MeanGapIsSpan | Prediction/analyze_triggers.py:296 | the mean interval times n - 1 is the first-to-last span |
| Triggers.AnalyzeSeizures | Prediction/analyze_triggers.py:49-53 | the food and interval analyses succeed exactly when there are seizures, and then give their specified results |
| Triggers.TriggerAnalyzer.constructor | Prediction/analyze_triggers.py:22-24 | the analyzer starts with no results |
| Triggers.TriggerAnalyzer.AnalyzeAll | Prediction/analyze_triggers.py:26-55 | the five frame analyses are stored in order; the food and interval results are stored exactly when the seizure table is not empty, and an empty table raises after the first five |

## Left out

- File and network I/O: CSV and JSON reading and writing, directory creation and path discovery are modelled as in-memory values. The seizure email sent by the seizure route is not modelled, nor is the error handling around it.
- Model training and inference: the trained classifiers and the scaler are function parameters; training, pickling and train/test splits are not modelled.
- Plotting, the quick-start script and the Flask plumbing are not modelled. The weather, fun-fact and good-morning messages use HTTP, an external API and randomness, and are left out too.
- Floating point: the model computes on exact reals. Standard deviation, variance, Pearson correlation, the Welch t-test and exponential decay are parameters, and sin/cos encodings are not modelled.
- Calendar strings: parsing and formatting of dates and times are not modelled (timestamps are integer seconds). `Tracker.LineDate` decides only whether a line is the header.
- Wall clock: `datetime.now()`, `date.today()` and `pd.Timestamp.now()` are parameters.
- `Dashboard.PrepareChartData`: the weekday table is in Monday-to-Sunday order as the source reindexes it. The value-counts order before that reindex is not modelled.
- `Dashboard.SortDescending`: pandas' default sort is not stable. The model uses a stable sort and claims nothing about the order of equal timestamps. The same applies to nlargest ties in `Triggers.Largest`.
- `FeatureEngineering.PrepareTrainingData`: states which columns are features and how many, not that they keep their original order.
- Feature engineering other than is_weekend, seizure history and pain features is not modelled: the heart-rate, activity and sleep rolling statistics. Neither are the rolling standard deviations, skew and class weights of `Prediction/main.py`.
- The temporal analysis adds hour, weekday and day-name columns to the seizures frame in place. The model derives them as values.
- The Apple Watch merge of `create_hourly_dataset` contributes only its timestamps to the span. Its measurement columns are not carried into the rows. The left merge on the watch table (`Prediction/data_preprocessing.py:135`) also duplicates a grid row for each repeat of a watch timestamp; the model keeps one row per grid hour there.
- `Predict.GetForecast`: `fillna(X.mean())` followed by `fillna(0)` is modelled as filling a missing cell with 0. Every column that can be missing is copied from the template and is constant over the forecast rows, so its mean is missing whenever a cell is.
- Grid.LoadSeizures: column names are not modelled; rows arrive with their cells already picked out. The tracker writes the header `Date,Time,Duration,Period,Eaten,FoodEaten` (`main.py:134`), and `_load_seizures` indexes `'Peiod'` (`Prediction/main.py:153`). On a file the tracker wrote, the source therefore raises KeyError before any row is loaded. The model describes the load of a file whose columns match.
- Preprocessing.LoadSeizures: the same holds for `'Food Eaten'` (`Prediction/data_preprocessing.py:49`), which the tracker's header spells `FoodEaten`. On such a file the source raises KeyError; the model describes a file whose columns match.
- Predict.GetForecast: the `predicted_hours_to_seizure` column of the forecast frame (`Prediction/predict.py:144`) passes the regressor's output through unchanged. The regressor is not modelled, so the column is not either.
- Triggers.TemporalPatterns: the day distribution is keyed by weekday number (Monday = 0), where the source keys it by day name (`Prediction/analyze_triggers.py:64-78`). The counts per day are the same under the one-to-one correspondence. The order is not: the source table is in `value_counts` order, and on tied counts `nlargest(2)` may then pick other days than the model does. The model proves only that the peak days are distinct, busiest first and no less busy than any day left out.
- `Prediction/main.py` `_merge_predictions_feedback`, the command-line driver and `get_summary`/`print_summary` in `Prediction/predict.py` are reporting or orchestration and are not modelled.
