# Sleep tracker core, modelled in Dafny

This project models the data pipeline of a sleep-tracking web service and
proves properties of the model. The service imports a fitness-band export
(a CSV table of JSON payloads), stores the nights and their heart-rate
samples, and computes per-night statistics: sleep latency, efficiency, phase
shares, fragmentation, calories, sleep cycles, regularity and chronotype. It
also shapes chart data, validates the profile and registration forms, and
scores generated sleep recommendations. The scoring covers the A/B tester's
quality metrics and overall score, the offline evaluator's safety,
personalization, composite and problem analysis, and the retrieval step that
builds a search query and a research context. Last, it splits PDF articles
into word chunks for the vector index.

One module per source file, plus small shared modules:

| module (file) | models |
|---|---|
| `Wrappers` (wrappers.dfy) | `Option`, and the `Outcome` of a step that may raise |
| `Text` (text.dfy) | `str.split`, `lower`, `in` on strings, `" ".join`, order-preserving de-duplication |
| `Clock` (clock.dfy) | UTC instants as epoch seconds: hour, minute, second, weekday, civil date |
| `Sorting` (sorting.dfy) | a stable insertion sort, which models Python's stable `sorted` |
| `Numeric` (numeric.dfy) | sums, means, population variance, weighted means |
| `Models` (models.dfy) | models.py: entities, validators, age in months, gender label, query orders |
| `NumToStr` (num_to_str.dfy) | num_to_str.py: the chronotype classifier |
| `SleepStatistic` (statistics.dfy) | calculate_sleep_statistic.py |
| `CsvExtraction` (csv_extraction.dfy) | csv_data_extraction.py |
| `Tasks` (tasks.dfy) | both tasks.py files: the store as a value and the import as functions of it |
| `Store` (store.dfy) | the same tasks as methods of a `SleepStore` class whose fields are the tables |
| `PlotDiagram` (plot_diagram.dfy) | plot_diagram.py |
| `Forms` (forms.dfy) | forms.py |
| `RagService` (rag_service.dfy) | rag_service.py |
| `AbTester` (ab_tester.dfy) | ab_tester.py |
| `EvaluateBaseline` (evaluate_baseline.dfy) | evaluate_baseline.py |
| `IndexArticles` (index_articles.dfy) | index_sleep_articles.py |

Modelling conventions:
- Instants are integer epoch seconds in UTC. A date is a day number.
- Python's `//` and `%` with a positive divisor agree with Dafny's Euclidean operators.
- An exception that aborts a step (a `None` compared with a datetime, a
  missing key, a failing `int()` or `time()`) is an `Outcome.Raises` value,
  not a precondition.
- The import runs inside `transaction.atomic`. A raise anywhere leaves the store as it was.
- The loops of the source are methods with loop invariants. Each is proved
  equal to a specification function, and the properties are lemmas about that function.
- The two `tasks.py` files hold the same import algorithm. The backend copy
  (backend/sleep_tracing_app/tasks.py) sits seven lines earlier than the
  Sleep_Tracker_AI copy, and the rows below cite the latter. The backend's
  single-id `sleep_recommended` is modelled on its own.

Where the code and its own comments disagree, the model follows the code:
- A sleep cycle counts at 90 minutes or more, although the docstring of
  `calculate_cycle_count` says more than 90.
- At exactly 05:00 the chronotype classifier matches no guard. The label is
  then empty, and the description table is still indexed with it.

## Model

| member | source | states |
|---|---|---|
| Text.Lower | Sleep_Tracker_AI/sleepproject/sleep_tracking_app/rag/rag_service.py:26 | lower-casing keeps the length and maps each character through `LowerChar`, which lowers A–Z, А–Я and Ё and leaves every other character unchanged |
| Text.Filter | Sleep_Tracker_AI/sleepproject/sleep_tracking_app/rag/rag_service.py:27 | exactly the elements satisfying the predicate, never more than the input |
| Text.CountWhere | Sleep_Tracker_AI/sleepproject/sleep_tracking_app/ab_testing/ab_tester.py:46-51 | the count of matching words never exceeds the word count |
| Text.Dedup | Sleep_Tracker_AI/sleepproject/sleep_tracking_app/rag/rag_service.py:43-48 | the de-duplicated list holds exactly the elements of its input |
| Text.WordsCharacterized | Sleep_Tracker_AI/sleepproject/sleep_tracking_app/ab_testing/ab_tester.py:40 | `str.split()` gives the maximal runs free of `str.isspace()` characters (ASCII whitespace, U+001C-U+001F, U+0085, no-break space and the Unicode spaces): no word is empty or holds such a character, and joining them reproduces the other characters in order |
| Text.SplitRuns | Sleep_Tracker_AI/sleepproject/sleep_tracking_app/ab_testing/ab_tester.py:41 | `re.split` on runs of delimiters always gives at least one piece |
| Text.DedupDistinct | Sleep_Tracker_AI/sleepproject/sleep_tracking_app/rag/rag_service.py:43-48 | the seen-set de-duplication leaves no repeated element |
| Text.DedupKeepsFirstOccurrenceOrder | Sleep_Tracker_AI/sleepproject/sleep_tracking_app/rag/rag_service.py:43-48 | elements keep the order of their first occurrences |
| Text.NatToString | Sleep_Tracker_AI/sleepproject/sleep_tracking_app/management/commands/index_sleep_articles.py:41 | the decimal rendering of a chunk index is non-empty and all digits |
| Clock.ClockFieldsSplitTheDay | Sleep_Tracker_AI/sleepproject/sleep_tracking_app/sleep_statistic/calculate_sleep_statistic.py:45 | hour, minute and second rebuild the second of the day, each in its range |
| Clock.Hour | Sleep_Tracker_AI/sleepproject/sleep_tracking_app/sleep_statistic/calculate_sleep_statistic.py:120 | the UTC hour of an instant is in 0..23 |
| Clock.Minute | Sleep_Tracker_AI/sleepproject/sleep_tracking_app/sleep_statistic/calculate_sleep_statistic.py:121 | the UTC minute of an instant is in 0..59 |
| Clock.Weekday | Sleep_Tracker_AI/sleepproject/sleep_tracking_app/sleep_statistic/calculate_sleep_statistic.py:48 | the weekday is in 0..6 |
| Clock.CalendarExamples | backend/backend/models/models.py:30-32 | day 0 is 1970-01-01; day 20414 is 2025-11-22, a Saturday (weekday 5) |
| Sorting.InsertionSort | ml/evaluation/evaluate_baseline.py:452 | the sort is a permutation of its input |
| Sorting.InsertionSortSorted | ml/evaluation/evaluate_baseline.py:452 | under a total preorder the result is sorted |
| Numeric.VarianceNonNegative | Sleep_Tracker_AI/sleepproject/sleep_tracking_app/sleep_statistic/calculate_sleep_statistic.py:137-138 | the population variance is never negative |
| Numeric.VarianceOfTwo | Sleep_Tracker_AI/sleepproject/sleep_tracking_app/sleep_statistic/calculate_sleep_statistic.py:137-138 | the variance of two samples is the square of half their distance |
| Numeric.MeanBounds | Sleep_Tracker_AI/sleepproject/sleep_tracking_app/sleep_statistic/calculate_sleep_statistic.py:207 | a mean lies between bounds of its samples |
| Numeric.SumBounds | Sleep_Tracker_AI/sleepproject/sleep_tracking_app/sleep_statistic/calculate_sleep_statistic.py:206-207 | a sum of n samples in [lo, hi] lies in [n * lo, n * hi] |
| Numeric.WeightedMeanBounds | Sleep_Tracker_AI/sleepproject/sleep_tracking_app/ab_testing/ab_tester.py:94 | a weighted mean of values in [lo, hi] with positive total weight lies in [lo, hi]; with no weight it is 0 |
| Models.AgeMonths | backend/backend/models/models.py:25-33 | in the same month, twelve months per year of difference; in the same year, the month difference |
| Models.AgeMonthsIgnoresDay | backend/backend/models/models.py:31-32 | the day of the month plays no part |
| Models.AgeMonthsAdvancesByYear | backend/backend/models/models.py:31-32 | one more year adds exactly twelve months |
| Models.GenderLabel | backend/backend/models/models.py:35-36 | 0 gives "Женский " with its trailing space, every other code "Мужской" |
| Models.PhaseDurationErrors | backend/backend/models/models.py:43-77 | the phase fields outside [0, 1440] are exactly the ones reported |
| Models.RowsOf | backend/backend/models/models.py:99 | exactly the rows the owner function gives to the user: the user's records here and, at models.py:183, the user's statistics rows |
| Models.NewerRecordFirstIsTotal | backend/backend/models/models.py:108 | `order_by('-sleep_date_time', 'id')` is a total preorder |
| Models.LastSleepRecords | backend/backend/models/models.py:92-99 | at most seven records |
| Models.LastSleepRecordsAreTheNewest | backend/backend/models/models.py:99 | the records come newest first, and any record of the user left out is no newer than the seventh |
| Models.DeltaDaysSleepRecordsOrder | backend/backend/models/models.py:101-108 | exactly the user's records, newest first, ties by ascending id |
| Models.DeltaDaysSleepStatisticsOrder | backend/backend/models/models.py:176-183 | exactly the user's statistics rows, latest date first, ties by ascending id |
| Models.LastSleepStatisticsIsLatest | backend/backend/models/models.py:166-174 | the row returned has the user's latest date; None only when the user has no rows |
| NumToStr.ChronotypeLabel | Sleep_Tracker_AI/sleepproject/sleep_tracking_app/sleep_statistic/num_to_str.py:15-23 | "skylark" iff before 03:00, "pigeon" iff 03:00 up to 05:00, "owl" iff after 05:00, empty iff exactly 05:00 |
| NumToStr.ChronotypeLabelMonotone | Sleep_Tracker_AI/sleepproject/sleep_tracking_app/sleep_statistic/num_to_str.py:15-21 | a later time never gets an earlier chronotype |
| NumToStr.InterpretChronotype | Sleep_Tracker_AI/sleepproject/sleep_tracking_app/sleep_statistic/num_to_str.py:9-34 | at most one key and it is the label; empty for no label; the description is the table entry when truthy, else ""; a missing entry raises |
| NumToStr.FiveOClockIsUnclassified | Sleep_Tracker_AI/sleepproject/sleep_tracking_app/sleep_statistic/num_to_str.py:22-34 | at 05:00 the result is `{}` unless indexing the empty label raises |
| SleepStatistic.CaloriesBurned | Sleep_Tracker_AI/sleepproject/sleep_tracking_app/sleep_statistic/calculate_sleep_statistic.py:7-14 | the basal rate times the hours asleep over 24 |
| SleepStatistic.CaloriesExample | Sleep_Tracker_AI/sleepproject/sleep_tracking_app/sleep_statistic/calculate_sleep_statistic.py:7-14 | 70 kg, 175 cm, 360 months, male, 480 minutes give 1648.75 / 3 |
| SleepStatistic.CaloriesAdditive | Sleep_Tracker_AI/sleepproject/sleep_tracking_app/sleep_statistic/calculate_sleep_statistic.py:12-13 | calories of two stretches add up |
| SleepStatistic.CaloriesGenderGap | Sleep_Tracker_AI/sleepproject/sleep_tracking_app/sleep_statistic/calculate_sleep_statistic.py:10 | any non-zero gender code is 166 kcal a day above the female formula |
| SleepStatistic.EvaluateBedtime | Sleep_Tracker_AI/sleepproject/sleep_tracking_app/sleep_statistic/calculate_sleep_statistic.py:17-20 | the earlier of the two bed times, the device's on a tie |
| SleepStatistic.EvaluateWakeTime | Sleep_Tracker_AI/sleepproject/sleep_tracking_app/sleep_statistic/calculate_sleep_statistic.py:23-26 | the later of the two wake times, the device's on a tie |
| SleepStatistic.EffectiveBedtime | Sleep_Tracker_AI/sleepproject/sleep_tracking_app/sleep_statistic/calculate_sleep_statistic.py:17-20 | on a record, raises iff a bed time is missing |
| SleepStatistic.EffectiveWakeTime | Sleep_Tracker_AI/sleepproject/sleep_tracking_app/sleep_statistic/calculate_sleep_statistic.py:23-26 | on a record, raises iff a wake time is missing |
| SleepStatistic.HasStateMeans | Sleep_Tracker_AI/sleepproject/sleep_tracking_app/sleep_statistic/calculate_sleep_statistic.py:99-102 | the flag is set iff a segment of that state occurs |
| SleepStatistic.CloseIndex | Sleep_Tracker_AI/sleepproject/sleep_tracking_app/sleep_statistic/calculate_sleep_statistic.py:103 | a cycle closes at the first Awake segment, else at the last segment |
| SleepStatistic.CyclesAppendRun | Sleep_Tracker_AI/sleepproject/sleep_tracking_app/sleep_statistic/calculate_sleep_statistic.py:103-108 | a closed run adds one cycle iff it has at least 90 minutes, Deep and REM |
| SleepStatistic.CountCycles | Sleep_Tracker_AI/sleepproject/sleep_tracking_app/sleep_statistic/calculate_sleep_statistic.py:95-109 | the counting loop over its four variables computes `CompletedCycles` |
| SleepStatistic.SegmentsByStart | Sleep_Tracker_AI/sleepproject/sleep_tracking_app/sleep_statistic/calculate_sleep_statistic.py:90 | the ordered segments are a permutation of the record's |
| SleepStatistic.SegmentsByStartSorted | Sleep_Tracker_AI/sleepproject/sleep_tracking_app/sleep_statistic/calculate_sleep_statistic.py:90 | and sorted by start time |
| SleepStatistic.CalculateCycleCount | Sleep_Tracker_AI/sleepproject/sleep_tracking_app/sleep_statistic/calculate_sleep_statistic.py:81-109 | the count of completed cycles of the start-ordered segments |
| SleepStatistic.NoCycleWithoutState | Sleep_Tracker_AI/sleepproject/sleep_tracking_app/sleep_statistic/calculate_sleep_statistic.py:103-108 | without a Deep or without a REM segment the count is 0 |
| SleepStatistic.CycleExample | Sleep_Tracker_AI/sleepproject/sleep_tracking_app/sleep_statistic/calculate_sleep_statistic.py:95-109 | Light 30, Deep 60, REM 20, then Awake make one cycle |
| SleepStatistic.CycleThresholdInclusive | Sleep_Tracker_AI/sleepproject/sleep_tracking_app/sleep_statistic/calculate_sleep_statistic.py:104 | exactly 90 minutes count, and the last segment closes a cycle |
| SleepStatistic.TimeToMinutes | Sleep_Tracker_AI/sleepproject/sleep_tracking_app/sleep_statistic/calculate_sleep_statistic.py:112-127 | None iff no time; otherwise in [0, 1440) |
| SleepStatistic.TimeToMinutesIgnoresSeconds | Sleep_Tracker_AI/sleepproject/sleep_tracking_app/sleep_statistic/calculate_sleep_statistic.py:120-123 | seconds play no part |
| SleepStatistic.TimeToMinutesExample | Sleep_Tracker_AI/sleepproject/sleep_tracking_app/sleep_statistic/calculate_sleep_statistic.py:123-126 | 23:30 is 210 minutes past 20:00 |
| SleepStatistic.Dispersion | Sleep_Tracker_AI/sleepproject/sleep_tracking_app/sleep_statistic/calculate_sleep_statistic.py:137-138 | zero below two samples, never negative |
| SleepStatistic.BedtimeMinutes | Sleep_Tracker_AI/sleepproject/sleep_tracking_app/sleep_statistic/calculate_sleep_statistic.py:134 | exactly the records with a bed time, in record order: as many entries as such records, the i-th being the clock minutes (from 20:00) of the i-th of them, each in [0, 1440) |
| SleepStatistic.WakeTimeMinutes | Sleep_Tracker_AI/sleepproject/sleep_tracking_app/sleep_statistic/calculate_sleep_statistic.py:135 | exactly the records with a wake time, in record order: as many entries as such records, the i-th being the clock minutes (from 20:00) of the i-th of them, each in [0, 1440) |
| SleepStatistic.SleepRegularity | Sleep_Tracker_AI/sleepproject/sleep_tracking_app/sleep_statistic/calculate_sleep_statistic.py:130-140 | `{}` iff no records; each spread non-negative and 0 below two samples |
| SleepStatistic.RegularityExample | Sleep_Tracker_AI/sleepproject/sleep_tracking_app/sleep_statistic/calculate_sleep_statistic.py:134-138 | bed times 22:00 and 23:00 spread by 30 minutes (variance 900) |
| SleepStatistic.FirstStart | Sleep_Tracker_AI/sleepproject/sleep_tracking_app/sleep_statistic/calculate_sleep_statistic.py:163-164 | the earliest segment start, which some segment has |
| SleepStatistic.CalculateMetrics | Sleep_Tracker_AI/sleepproject/sleep_tracking_app/sleep_statistic/calculate_sleep_statistic.py:145-196 | raises iff a needed field or segment is missing; latency from the first start; efficiency 0 when time in bed is 0; phases 0 when duration is 0, and otherwise each of deep, light, REM and awake is its duration as a percentage of duration + awake duration; fragmentation; calories |
| SleepStatistic.EfficiencyFullWhenAsleepThroughout | Sleep_Tracker_AI/sleepproject/sleep_tracking_app/sleep_statistic/calculate_sleep_statistic.py:168-169 | asleep for all the time in bed gives 100 |
| SleepStatistic.PhasesSumToHundred | Sleep_Tracker_AI/sleepproject/sleep_tracking_app/sleep_statistic/calculate_sleep_statistic.py:172-181 | four shares over `duration + awake` add to 100 when the phases add to the total |
| SleepStatistic.MetricsExample | Sleep_Tracker_AI/sleepproject/sleep_tracking_app/sleep_statistic/calculate_sleep_statistic.py:159-196 | a concrete night: latency 10 minutes, efficiency 100, phases 37.5/56.25/6.25/0, fragmentation 0.125 |
| SleepStatistic.TruthyDurations | Sleep_Tracker_AI/sleepproject/sleep_tracking_app/sleep_statistic/calculate_sleep_statistic.py:205 | only present, non-zero durations, never more than given |
| SleepStatistic.TruthyDurationsAreTheTruthyEntries | Sleep_Tracker_AI/sleepproject/sleep_tracking_app/sleep_statistic/calculate_sleep_statistic.py:205 | exactly the values of the present, non-zero entries, in their order |
| SleepStatistic.AvgSleepDuration | Sleep_Tracker_AI/sleepproject/sleep_tracking_app/sleep_statistic/calculate_sleep_statistic.py:199-208 | 0 when no truthy duration remains; otherwise the mean of the truthy durations in hours (result × 60 × count equals their sum) |
| SleepStatistic.AvgSleepDurationSkipsFalsy | Sleep_Tracker_AI/sleepproject/sleep_tracking_app/sleep_statistic/calculate_sleep_statistic.py:205 | a missing or zero duration leaves the average unchanged |
| SleepStatistic.AvgSleepDurationBounds | Sleep_Tracker_AI/sleepproject/sleep_tracking_app/sleep_statistic/calculate_sleep_statistic.py:206-207 | the average of durations in [lo, hi] minutes lies in [lo/60, hi/60] hours |
| SleepStatistic.AvgSleepDurationExample | Sleep_Tracker_AI/sleepproject/sleep_tracking_app/sleep_statistic/calculate_sleep_statistic.py:199-208 | 480 and 420 minutes average 7.5 hours |
| SleepStatistic.NightOf | Sleep_Tracker_AI/sleepproject/sleep_tracking_app/sleep_statistic/calculate_sleep_statistic.py:42-50 | raises iff the bed time raises; mid-sleep hour in [0, 24); a free night iff the bed time falls on weekday 5 or 6 |
| SleepStatistic.Nights | Sleep_Tracker_AI/sleepproject/sleep_tracking_app/sleep_statistic/calculate_sleep_statistic.py:42-50 | one night per record |
| SleepStatistic.NightsRaisesOnward | Sleep_Tracker_AI/sleepproject/sleep_tracking_app/sleep_statistic/calculate_sleep_statistic.py:43 | one raising record makes the whole loop raise |
| SleepStatistic.FreeHours | Sleep_Tracker_AI/sleepproject/sleep_tracking_app/sleep_statistic/calculate_sleep_statistic.py:50 | one duration per free night |
| SleepStatistic.AllHours | Sleep_Tracker_AI/sleepproject/sleep_tracking_app/sleep_statistic/calculate_sleep_statistic.py:47 | one duration per night |
| SleepStatistic.AllFreeMeansNoCorrection | Sleep_Tracker_AI/sleepproject/sleep_tracking_app/sleep_statistic/calculate_sleep_statistic.py:56-60 | when every night is free the corrected mid-sleep is the plain mean |
| SleepStatistic.AllFreeHoursAreAllHours | Sleep_Tracker_AI/sleepproject/sleep_tracking_app/sleep_statistic/calculate_sleep_statistic.py:57-58 | when every night is free both duration lists agree |
| SleepStatistic.Truncate | Sleep_Tracker_AI/sleepproject/sleep_tracking_app/sleep_statistic/calculate_sleep_statistic.py:61-62 | `int()` of a float truncates toward zero |
| SleepStatistic.ClockOf | Sleep_Tracker_AI/sleepproject/sleep_tracking_app/sleep_statistic/calculate_sleep_statistic.py:61-63 | `time()` succeeds iff the hour part is 0..23, giving a valid clock time |
| SleepStatistic.ChronotypeAssessment | Sleep_Tracker_AI/sleepproject/sleep_tracking_app/sleep_statistic/calculate_sleep_statistic.py:29-78 | the loop appending to four lists computes `ChronotypeOf` |
| SleepStatistic.ClassifyMidSleep | Sleep_Tracker_AI/sleepproject/sleep_tracking_app/sleep_statistic/calculate_sleep_statistic.py:53-78 | from the free mid-sleeps, the free-night hours and all hours of the nights, gives their assessment: none without a free night, otherwise the corrected mid-sleep read as a clock time and interpreted |
| SleepStatistic.ChronotypeNeedsAFreeNight | Sleep_Tracker_AI/sleepproject/sleep_tracking_app/sleep_statistic/calculate_sleep_statistic.py:34-54 | when every bed time is known and falls on a weekday (or there are no records) the result is `{}` |
| SleepStatistic.NoFreeNights | Sleep_Tracker_AI/sleepproject/sleep_tracking_app/sleep_statistic/calculate_sleep_statistic.py:48-54 | without weekend bed times there is no free mid-sleep |
| SleepStatistic.ChronotypeImageFollowsLabel | Sleep_Tracker_AI/sleepproject/sleep_tracking_app/sleep_statistic/calculate_sleep_statistic.py:66-76 | the image is `<label>.png` for the label found, None otherwise |
| SleepStatistic.ChronotypeExample | Sleep_Tracker_AI/sleepproject/sleep_tracking_app/sleep_statistic/calculate_sleep_statistic.py:42-78 | one Saturday night from 23:00 for 480 minutes is a pigeon |
| CsvExtraction.MaskNight | Sleep_Tracker_AI/sleepproject/sleep_tracking_app/csv_data_extraction.py:14-22 | with both bounds and start < end it selects [start, end); with both bounds otherwise it excludes exactly [end, start); a missing (NaT) start keeps the times before the end, a missing end keeps the times from the start, and two missing bounds keep nothing |
| CsvExtraction.HasValidSleep | Sleep_Tracker_AI/sleepproject/sleep_tracking_app/csv_data_extraction.py:40-49 | raises iff a blank cell (NaN, a TypeError not caught) comes among the first five before any accepted payload; true iff one of the first five payloads, with no blank cell before it, is a dict with items, version 2 and a truthy has_stage; false iff none of the five is either |
| CsvExtraction.RowsWithKey | Sleep_Tracker_AI/sleepproject/sleep_tracking_app/csv_data_extraction.py:36 | the rows with that key, all of them and in table order (equal to the order-preserving filter) |
| CsvExtraction.ValuesOf | Sleep_Tracker_AI/sleepproject/sleep_tracking_app/csv_data_extraction.py:42 | the value column of the rows, in order |
| CsvExtraction.KeptSessions | Sleep_Tracker_AI/sleepproject/sleep_tracking_app/csv_data_extraction.py:62-65 | raises iff some sleep row is not a decoded object, or is version 2 without a bool `has_stage` (the mask then is not boolean); otherwise exactly the rows with version 2 and `has_stage` true, in order, as (Time, object) |
| CsvExtraction.Payloads | Sleep_Tracker_AI/sleepproject/sleep_tracking_app/csv_data_extraction.py:76 | the decoded payload of each kept session, in order |
| CsvExtraction.MetaOf | Sleep_Tracker_AI/sleepproject/sleep_tracking_app/csv_data_extraction.py:76-79 | succeeds iff every dropped column exists; one metadata row per session |
| CsvExtraction.MetaRowsOfSessions | Sleep_Tracker_AI/sleepproject/sleep_tracking_app/csv_data_extraction.py:76-79 | each metadata row is its session's time and payload without the dropped fields |
| CsvExtraction.Exploded | Sleep_Tracker_AI/sleepproject/sleep_tracking_app/csv_data_extraction.py:84 | at least one row; a non-empty list gives exactly its elements |
| CsvExtraction.ItemRowsOf | Sleep_Tracker_AI/sleepproject/sleep_tracking_app/csv_data_extraction.py:86-89 | one row per element, indexed by the parent session's time |
| CsvExtraction.ItemsOf | Sleep_Tracker_AI/sleepproject/sleep_tracking_app/csv_data_extraction.py:83-90 | succeeds iff every session has `items` |
| CsvExtraction.ItemsBelongToSessions | Sleep_Tracker_AI/sleepproject/sleep_tracking_app/csv_data_extraction.py:83-90 | every item row carries a kept session's time; with non-empty lists, one row per element |
| CsvExtraction.Normalize | Sleep_Tracker_AI/sleepproject/sleep_tracking_app/csv_data_extraction.py:94 | one field map per decoded heart-rate row |
| CsvExtraction.HeartRateSamples | Sleep_Tracker_AI/sleepproject/sleep_tracking_app/csv_data_extraction.py:93-97 | succeeds iff every row decodes, a `time` column exists and every time is an integer or null; then one sample per row, in order, holding that row's time and bpm |
| CsvExtraction.NightPart | Sleep_Tracker_AI/sleepproject/sleep_tracking_app/csv_data_extraction.py:109-111 | exactly the samples `mask_night` admits, in sample order: inside [start, end) when start < end, outside [end, start) otherwise; with a NaT start only before the end, with a NaT end only from the start, with both NaT nothing |
| CsvExtraction.MissingBoundKeepsOneSide | Sleep_Tracker_AI/sleepproject/sleep_tracking_app/csv_data_extraction.py:19-22 | a missing bed time keeps the samples before the wake time, a missing wake time those from the bed time |
| CsvExtraction.NightPartCount | Sleep_Tracker_AI/sleepproject/sleep_tracking_app/csv_data_extraction.py:109-111 | a session's part holds an admitted sample as often as the samples do, and no other |
| CsvExtraction.NightOfCount | Sleep_Tracker_AI/sleepproject/sleep_tracking_app/csv_data_extraction.py:108-113 | the night table holds each sample once per session whose window admits it, and nothing else |
| CsvExtraction.NightKeepsDuplicates | Sleep_Tracker_AI/sleepproject/sleep_tracking_app/csv_data_extraction.py:108-113 | a sample inside two windows appears twice |
| CsvExtraction.ConvertToReadableTime | Sleep_Tracker_AI/sleepproject/sleep_tracking_app/csv_data_extraction.py:6-11 | only the listed present columns are converted; the rest are unchanged |
| CsvExtraction.TimeColumns | Sleep_Tracker_AI/sleepproject/sleep_tracking_app/csv_data_extraction.py:123-124 | exactly the present columns whose name contains "time" |
| CsvExtraction.Steps | Sleep_Tracker_AI/sleepproject/sleep_tracking_app/csv_data_extraction.py:54-128 | progress steps 1 to 9 of 9, in order |
| CsvExtraction.NightParts | Sleep_Tracker_AI/sleepproject/sleep_tracking_app/csv_data_extraction.py:108-113 | the appending loop builds the concatenation of the parts |
| CsvExtraction.SleepRecordFromCsv | Sleep_Tracker_AI/sleepproject/sleep_tracking_app/csv_data_extraction.py:25-130 | the parser computes `ParseExport` |
| CsvExtraction.ReadSessions | Sleep_Tracker_AI/sleepproject/sleep_tracking_app/csv_data_extraction.py:56-90 | the session half of the parser |
| CsvExtraction.ReadNight | Sleep_Tracker_AI/sleepproject/sleep_tracking_app/csv_data_extraction.py:92-130 | the heart-rate half of the parser (reading the samples and the intervals, then `SplitNight`) computes `ParseNight` |
| CsvExtraction.SplitNight | Sleep_Tracker_AI/sleepproject/sleep_tracking_app/csv_data_extraction.py:108-130 | collecting every session's part, reporting steps 8 and 9 and converting the time columns computes `NightTables`: `Failed` when a time column is not convertible, otherwise the night table `NightOf` |
| CsvExtraction.RefusedOnlyBySignature | Sleep_Tracker_AI/sleepproject/sleep_tracking_app/csv_data_extraction.py:31-52 | the parse is `Invalid` iff the signature check refuses the table |
| CsvExtraction.InvalidExactly | Sleep_Tracker_AI/sleepproject/sleep_tracking_app/csv_data_extraction.py:31-52 | `Invalid` iff a required column is missing, there is no sleep row, or none of the first five sleep cells is acceptable or blank |
| CsvExtraction.BlankFirstCellRaises | Sleep_Tracker_AI/sleepproject/sleep_tracking_app/csv_data_extraction.py:42-49 | a blank first sleep cell makes the parse raise |
| CsvExtraction.OnlyFirstFiveInspected | Sleep_Tracker_AI/sleepproject/sleep_tracking_app/csv_data_extraction.py:42 | sleep rows after the fifth never change refusal |
| CsvExtraction.AcceptedPayloadIsKept | Sleep_Tracker_AI/sleepproject/sleep_tracking_app/csv_data_extraction.py:45-65 | the payload that passed the check is a kept session |
| CsvExtraction.ParsedShape | Sleep_Tracker_AI/sleepproject/sleep_tracking_app/csv_data_extraction.py:62-90 | on success there is at least one session, and one metadata row per session with its time and without the dropped fields |
| Tasks.NaturalKeyIsUnique | backend/backend/models/models.py:86-87 | in a valid store no two records share (user, sleep_date_time) |
| Tasks.UpsertOne | Sleep_Tracker_AI/sleepproject/sleep_tracking_app/tasks.py:54-73 | update in place when the key exists, else a new id; nothing else changes |
| Tasks.UpsertOneKeepsValid | Sleep_Tracker_AI/sleepproject/sleep_tracking_app/tasks.py:54-74 | one upsert keeps the store valid |
| Tasks.UpsertAll | Sleep_Tracker_AI/sleepproject/sleep_tracking_app/tasks.py:52-78 | the upsert loop leaves the child tables and statistics untouched |
| Tasks.UpsertAllValid | Sleep_Tracker_AI/sleepproject/sleep_tracking_app/tasks.py:52-74 | validity kept, existing keys keep their ids, every listed session has its key |
| Tasks.UpsertAllAddsOnlyListedKeys | Sleep_Tracker_AI/sleepproject/sleep_tracking_app/tasks.py:53-74 | no key is added but the listed sessions' |
| Tasks.UpsertAllIndexPointsToRecords | Sleep_Tracker_AI/sleepproject/sleep_tracking_app/tasks.py:53-74 | every index entry names a stored record |
| Tasks.UpsertAllAddsOnlyFreshIds | Sleep_Tracker_AI/sleepproject/sleep_tracking_app/tasks.py:54-73 | new records get fresh ids only |
| Tasks.UpsertAllOfExistingUsesNoId | Sleep_Tracker_AI/sleepproject/sleep_tracking_app/tasks.py:54-73 | re-importing known sessions creates no record |
| Tasks.UpsertAllRecordMap | Sleep_Tracker_AI/sleepproject/sleep_tracking_app/tasks.py:74 | `record_map` lists each distinct session time once, with its indexed id |
| Tasks.RecordMapIsStored | Sleep_Tracker_AI/sleepproject/sleep_tracking_app/tasks.py:74 | every time of the record map has a stored record |
| Tasks.UpsertAllIndex | Sleep_Tracker_AI/sleepproject/sleep_tracking_app/tasks.py:52-74 | the index holds the old keys plus exactly the listed ones |
| Tasks.UpsertAllKeepsLastFields | Sleep_Tracker_AI/sleepproject/sleep_tracking_app/tasks.py:54-74 | each listed record holds the fields of its last metadata row |
| Tasks.UpsertAllKeepsUnlisted | Sleep_Tracker_AI/sleepproject/sleep_tracking_app/tasks.py:54-73 | records of other keys are unchanged |
| Tasks.FirstUnsavable | Sleep_Tracker_AI/sleepproject/sleep_tracking_app/tasks.py:53-74 | every row before it saves; the row at it, if any, does not: it lacks a number key another session has, has null where another session has a number or lacks the key, or `has_rem` is not a boolean |
| Tasks.ImportNeedsSavableRows | Sleep_Tracker_AI/sleepproject/sleep_tracking_app/tasks.py:50-74 | a completed import saved every metadata row |
| Tasks.MissingColumnValueFails | Sleep_Tracker_AI/sleepproject/sleep_tracking_app/tasks.py:53-74 | a session without the `duration` another session has fails the import and leaves the store unchanged |
| Tasks.NullThenAbsentFails | Sleep_Tracker_AI/sleepproject/sleep_tracking_app/tasks.py:53-74 | a `min_hr` null in one session and absent from the other makes the first row unsavable, fails the import and leaves the store unchanged |
| Tasks.NullColumnSaves | Sleep_Tracker_AI/sleepproject/sleep_tracking_app/tasks.py:53-74 | a `min_hr` present and null in every session saves every row |
| Tasks.UpsertAgainKeepsIndex | Sleep_Tracker_AI/sleepproject/sleep_tracking_app/tasks.py:53-74 | a second upsert of the same sessions keeps the index and uses no id |
| Tasks.UpsertIsIdempotent | Sleep_Tracker_AI/sleepproject/sleep_tracking_app/tasks.py:53-74 | importing the same sessions twice leaves the same records |
| Tasks.RowsOutside | Sleep_Tracker_AI/sleepproject/sleep_tracking_app/tasks.py:81-82 | exactly the child rows (segments, heart-rate samples) whose record is not among the deleted ids |
| Tasks.DeleteChildren | Sleep_Tracker_AI/sleepproject/sleep_tracking_app/tasks.py:81-83 | child rows of the upserted records go, all the user's statistics go, nothing else changes |
| Tasks.IdSet | Sleep_Tracker_AI/sleepproject/sleep_tracking_app/tasks.py:81 | the ids the record map hands out |
| Tasks.SegmentOf | Sleep_Tracker_AI/sleepproject/sleep_tracking_app/tasks.py:95-101 | a segment iff start, end and state are integers |
| Tasks.NewSegments | Sleep_Tracker_AI/sleepproject/sleep_tracking_app/tasks.py:91-102 | fails iff an item row of a listed session has no usable segment; then one row per such item, under a listed id |
| Tasks.NewSegmentsAreListedItems | Sleep_Tracker_AI/sleepproject/sleep_tracking_app/tasks.py:91-102 | the rows are exactly the item rows of listed sessions, in order, each with its session's record id and its segment |
| Tasks.HeartRatesOf | Sleep_Tracker_AI/sleepproject/sleep_tracking_app/tasks.py:107-113 | every row is a night sample of the record with bed <= time <= wake; with both times, fails iff a sample in that window lacks bpm |
| Tasks.HeartRatesOfIsWindow | Sleep_Tracker_AI/sleepproject/sleep_tracking_app/tasks.py:107-113 | the rows are exactly the night samples in the closed window [bed, wake], in table order, none without both times |
| Tasks.HeartRateWindowIsClosed | Sleep_Tracker_AI/sleepproject/sleep_tracking_app/tasks.py:107-108 | both ends are included, and a reversed window selects nothing, unlike `mask_night` |
| Tasks.NewHeartRates | Sleep_Tracker_AI/sleepproject/sleep_tracking_app/tasks.py:105-113 | succeeds iff each record's window succeeds; every sample names a listed record |
| Tasks.NewHeartRatesAreSelected | Sleep_Tracker_AI/sleepproject/sleep_tracking_app/tasks.py:105-113 | the rows are exactly each listed record's window, record by record in record-map order |
| Tasks.SegmentsOf | Sleep_Tracker_AI/sleepproject/sleep_tracking_app/tasks.py:122-123 | exactly the record's stored segments |
| Tasks.StatisticsFor | Sleep_Tracker_AI/sleepproject/sleep_tracking_app/tasks.py:122-135 | raises iff the metrics raise; the row is the user's, dated by the night, with no recommendation |
| Tasks.NewStatistics | Sleep_Tracker_AI/sleepproject/sleep_tracking_app/tasks.py:120-135 | one row per listed record |
| Tasks.NightDays | Sleep_Tracker_AI/sleepproject/sleep_tracking_app/tasks.py:128 | one day per listed record |
| Tasks.NewStatisticsAreDated | Sleep_Tracker_AI/sleepproject/sleep_tracking_app/tasks.py:125-135 | the rows carry their records' night dates |
| Tasks.AddStatistics | Sleep_Tracker_AI/sleepproject/sleep_tracking_app/tasks.py:138 | `bulk_create` adds the rows under consecutive new ids and keeps the rest |
| Tasks.RebuildKeepsValid | Sleep_Tracker_AI/sleepproject/sleep_tracking_app/tasks.py:80-138 | the rebuild keeps the store valid and the records untouched |
| Tasks.RebuildReplacesUserStatistics | Sleep_Tracker_AI/sleepproject/sleep_tracking_app/tasks.py:83 | all of the user's old statistics go; other users' stay |
| Tasks.RebuildAddsStatistics | Sleep_Tracker_AI/sleepproject/sleep_tracking_app/tasks.py:120-138 | one new statistics row per record-map time, dated by its night |
| Tasks.RebuildKeepsOtherChildren | Sleep_Tracker_AI/sleepproject/sleep_tracking_app/tasks.py:81-82 | segments and samples of other records stay |
| Tasks.ImportKeepsStoreValid | Sleep_Tracker_AI/sleepproject/sleep_tracking_app/tasks.py:27-143 | the import keeps the store valid |
| Tasks.ImportIsAtomic | Sleep_Tracker_AI/sleepproject/sleep_tracking_app/tasks.py:36-38 | a refused file or a raise changes nothing; the error status iff refused (also backend/sleep_tracing_app/tasks.py:29-31) |
| Tasks.ImportCountsMetadataRows | Sleep_Tracker_AI/sleepproject/sleep_tracking_app/tasks.py:143 | `imported` is the number of metadata rows |
| Tasks.ImportLeavesOthersAlone | Sleep_Tracker_AI/sleepproject/sleep_tracking_app/tasks.py:81-83 | other users' records and statistics are untouched (also backend/sleep_tracing_app/tasks.py:74-76) |
| Tasks.DaysOf | Sleep_Tracker_AI/sleepproject/sleep_tracking_app/tasks.py:128 | the day number of each instant |
| Tasks.NightDaysAreSessionDays | Sleep_Tracker_AI/sleepproject/sleep_tracking_app/tasks.py:128 | each statistics date is that of its session time |
| Tasks.ImportTablesAppendsStatistics | Sleep_Tracker_AI/sleepproject/sleep_tracking_app/tasks.py:120-138 | a completed import appends one row per session time |
| Tasks.ImportCreatesOneStatisticPerSession | Sleep_Tracker_AI/sleepproject/sleep_tracking_app/tasks.py:120-138 | exactly one statistics row per distinct session, dated by `sleep_date_time.date()` (also backend/sleep_tracing_app/tasks.py:113-131) |
| Store.Progress | Sleep_Tracker_AI/sleepproject/sleep_tracking_app/tasks.py:76-78 | progress (k, total) after each of the rows |
| Store.PrepareSegments | Sleep_Tracker_AI/sleepproject/sleep_tracking_app/tasks.py:91-102 | the segment loop computes `NewSegments` |
| Store.OrderedLookup | Sleep_Tracker_AI/sleepproject/sleep_tracking_app/tasks.py:159-164 | no more rows than ids; the row of every listed id that exists, and nothing else |
| Store.FirstKnown | Sleep_Tracker_AI/sleepproject/sleep_tracking_app/tasks.py:191 | the first listed id that exists |
| Store.OrderedLookupStartsWithFirstKnown | Sleep_Tracker_AI/sleepproject/sleep_tracking_app/tasks.py:163-167 | empty iff no listed id exists; otherwise it starts with the first one that does |
| Store.RecommendNeedsData | Sleep_Tracker_AI/sleepproject/sleep_tracking_app/tasks.py:166-167 | with no known record or no known statistics row, the "insufficient data" reply and no write |
| Store.RecommendWritesFirstKnownStatistic | Sleep_Tracker_AI/sleepproject/sleep_tracking_app/tasks.py:187-204 | only `recommended` of the first known statistics row changes; an empty generation writes nothing |
| Store.RecommendSingleStoresText | backend/sleep_tracing_app/tasks.py:138-147 | raises iff an id is unknown; otherwise stores exactly the generated text and returns it |
| Store.SleepStore.Restore | Sleep_Tracker_AI/sleepproject/sleep_tracking_app/tasks.py:140 | the rollback puts back the saved state |
| Store.SleepStore.UpdateOrCreate | Sleep_Tracker_AI/sleepproject/sleep_tracking_app/tasks.py:54-73 | the new state and id are those of `UpsertOne`; the store stays valid |
| Store.SleepStore.UpsertSessions | Sleep_Tracker_AI/sleepproject/sleep_tracking_app/tasks.py:52-78 | succeeds iff every row can be saved; then the loop gives `UpsertAll`, otherwise the upsert of the rows before the first failing one; one progress report per saved row; the store stays valid |
| Store.SleepStore.DeleteOldChildren | Sleep_Tracker_AI/sleepproject/sleep_tracking_app/tasks.py:81-83 | the new state is `DeleteChildren` of the old |
| Store.SleepStore.PrepareHeartRates | Sleep_Tracker_AI/sleepproject/sleep_tracking_app/tasks.py:105-113 | the loop computes `NewHeartRates` |
| Store.SleepStore.PrepareStatistics | Sleep_Tracker_AI/sleepproject/sleep_tracking_app/tasks.py:120-135 | the loop computes `NewStatistics` |
| Store.SleepStore.AttachChildren | Sleep_Tracker_AI/sleepproject/sleep_tracking_app/tasks.py:86-117 | succeeds iff `NewSegments` and `NewHeartRates` do; then exactly their rows are appended, otherwise nothing changes |
| Store.SleepStore.AddNewStatistics | Sleep_Tracker_AI/sleepproject/sleep_tracking_app/tasks.py:119-138 | succeeds iff `NewStatistics` does; then exactly its rows are added under consecutive fresh ids, otherwise nothing changes |
| Store.SleepStore.RebuildChildren | Sleep_Tracker_AI/sleepproject/sleep_tracking_app/tasks.py:80-138 | the new state is `Rebuild`; records unchanged; on success the store is valid |
| Store.SleepStore.ImportSleepRecords | Sleep_Tracker_AI/sleepproject/sleep_tracking_app/tasks.py:27-143 | the status and new state are `ImportSleepRecordsSpec`; progress only for a parsed file, one report per row saved before the first failing one; the store stays valid |
| Store.SleepStore.SleepRecommended | Sleep_Tracker_AI/sleepproject/sleep_tracking_app/tasks.py:145-204 | the reply and new state are `RecommendSpec`; the store stays valid |
| Store.SleepStore.SleepRecommendedSingle | backend/sleep_tracing_app/tasks.py:138-147 | the reply and new state are `RecommendSingleSpec`; the store stays valid |
| PlotDiagram.PieData | Sleep_Tracker_AI/sleepproject/sleep_tracking_app/sleep_statistic/plot_diagram.py:7-34 | [] with no statistics row; three slices without REM, four with REM third |
| PlotDiagram.PieSlicesShowTheirPhases | Sleep_Tracker_AI/sleepproject/sleep_tracking_app/sleep_statistic/plot_diagram.py:17-34 | REM slice iff REM share non-zero; each slice shows its phase value (0 if missing), sized only when positive |
| PlotDiagram.ClockLabel | Sleep_Tracker_AI/sleepproject/sleep_tracking_app/sleep_statistic/plot_diagram.py:50 | an "HH:MM" label |
| PlotDiagram.ClockLabelRoundTrip | Sleep_Tracker_AI/sleepproject/sleep_tracking_app/sleep_statistic/plot_diagram.py:50 | the label reads back as the instant's hour and minute |
| PlotDiagram.HeartRateBellCurve | Sleep_Tracker_AI/sleepproject/sleep_tracking_app/sleep_statistic/plot_diagram.py:37-53 | empty lists without a record; equal lengths in entry order, labels HH:MM |
| PlotDiagram.BellCurveExample | Sleep_Tracker_AI/sleepproject/sleep_tracking_app/sleep_statistic/plot_diagram.py:50-53 | 23:00 and 00:00 samples give those labels and bpm values in order |
| PlotDiagram.SleepDurationTrend | Sleep_Tracker_AI/sleepproject/sleep_tracking_app/sleep_statistic/plot_diagram.py:56-76 | one date and one duration per record, in order; empty lists for no records |
| PlotDiagram.RoundedOrNone | Sleep_Tracker_AI/sleepproject/sleep_tracking_app/sleep_statistic/plot_diagram.py:96-100 | None stays None |
| PlotDiagram.SleepEfficiencyTrend | Sleep_Tracker_AI/sleepproject/sleep_tracking_app/sleep_statistic/plot_diagram.py:79-109 | `{}` iff no rows; otherwise each list has one entry per row, missing values stay missing |
| Forms.GenderChoice | backend/sleep_tracing_app/forms.py:10-18 | only "1" and "0" are accepted, as 1 and 0 |
| Forms.ProfileErrors | backend/sleep_tracing_app/forms.py:14-32 | no errors iff date of birth, weight, gender and height are all acceptable |
| Forms.CleanProfile | backend/sleep_tracing_app/forms.py:9-32 | a rejected form has errors |
| Forms.AcceptedProfileIsValid | backend/sleep_tracing_app/forms.py:16-32 | a saved profile meets the model validators, height in [40, 270], age at least 5 * 365 days |
| Forms.AcceptanceLasts | backend/sleep_tracing_app/forms.py:27-32 | a profile accepted today is accepted later |
| Forms.ProfileBoundaryExamples | backend/sleep_tracing_app/forms.py:16-32 | 39 and 272 cm, 0 kg, tomorrow and three years ago are rejected; 270 cm and exactly five years are accepted |
| Forms.CleanEmail | backend/sleep_tracing_app/forms.py:55-59 | accepted, unchanged, iff no existing user has the address; a blank address is the empty string and is refused once some user has none |
| Forms.RegistrationKeepsEmailsUnique | backend/sleep_tracing_app/forms.py:55-59 | registering accepted addresses keeps addresses unique |
| RagService.IntOf | Sleep_Tracker_AI/sleepproject/sleep_tracking_app/rag/rag_service.py:32 | `int()` of an int, or of a digit string |
| RagService.AgeOfExamples | Sleep_Tracker_AI/sleepproject/sleep_tracking_app/rag/rag_service.py:29-34 | a given age wins; months give whole years; failures give None |
| RagService.KeywordsIn | Sleep_Tracker_AI/sleepproject/sleep_tracking_app/rag/rag_service.py:27 | exactly the indicators in the text, in indicator order, without repeats |
| RagService.AgeKeywords | Sleep_Tracker_AI/sleepproject/sleep_tracking_app/rag/rag_service.py:36-40 | the teen phrase iff age < 25, the elder phrase iff age > 60 |
| RagService.DedupKeywords | Sleep_Tracker_AI/sleepproject/sleep_tracking_app/rag/rag_service.py:42-49 | the seen-set loop computes `Text.Dedup` |
| RagService.CreateSearchQuery | Sleep_Tracker_AI/sleepproject/sleep_tracking_app/rag/rag_service.py:22-50 | the method computes `SearchQuery` |
| RagService.ProblemIndicatorsAreDistinct | Sleep_Tracker_AI/sleepproject/sleep_tracking_app/rag/rag_service.py:23-25 | the indicator list has no repeats |
| RagService.SearchQueryKeepsEveryKeyword | Sleep_Tracker_AI/sleepproject/sleep_tracking_app/rag/rag_service.py:42-49 | the query words are the keywords, without repeats |
| RagService.SearchQueryKeywords | Sleep_Tracker_AI/sleepproject/sleep_tracking_app/rag/rag_service.py:26-50 | an indicator is in the query iff it is in the lowercased text; with none and no age phrase, the default query |
| RagService.ExcerptIsBoundedPrefix | Sleep_Tracker_AI/sleepproject/sleep_tracking_app/rag/rag_service.py:58 | at most 503 characters; a text of up to 500 is unchanged; a longer one gives 503 characters starting with its first 500 |
| RagService.Blocks | Sleep_Tracker_AI/sleepproject/sleep_tracking_app/rag/rag_service.py:56-64 | one block per hit, numbered from 1 |
| RagService.BuildResearchContext | Sleep_Tracker_AI/sleepproject/sleep_tracking_app/rag/rag_service.py:52-65 | the loop computes `ResearchContext` |
| RagService.ResearchContextOpensWithFirstBlock | Sleep_Tracker_AI/sleepproject/sleep_tracking_app/rag/rag_service.py:53-65 | no hits give the "not found" string; otherwise the first block opens the context |
| RagService.SourcesOf | Sleep_Tracker_AI/sleepproject/sleep_tracking_app/rag/rag_service.py:78-81 | one source per hit, in order |
| RagService.Enhance | Sleep_Tracker_AI/sleepproject/sleep_tracking_app/rag/rag_service.py:67-116 | the method computes `EnhanceSpec` |
| RagService.FailedSearchGivesNoSources | Sleep_Tracker_AI/sleepproject/sleep_tracking_app/rag/rag_service.py:73-84 | a failing search gives no sources, and the prompt is built on the "not found" context |
| RagService.EnhanceReportsItsInputs | Sleep_Tracker_AI/sleepproject/sleep_tracking_app/rag/rag_service.py:78-116 | the result echoes the response and query and lists the hits' sources |
| RagService.EnhancedTextFallsBack | Sleep_Tracker_AI/sleepproject/sleep_tracking_app/rag/rag_service.py:102-106 | `response`, else `response_preview`, else ""; `str(result)` for a non-dict |
| AbTester.Share | Sleep_Tracker_AI/sleepproject/sleep_tracking_app/ab_testing/ab_tester.py:46-51 | a density in [0, k]: 0 without words or hits |
| AbTester.Readability | Sleep_Tracker_AI/sleepproject/sleep_tracking_app/ab_testing/ab_tester.py:45 | in [0, 100]; 0 without words; 100 from 20 words per sentence |
| AbTester.SimpleQualityMetrics | Sleep_Tracker_AI/sleepproject/sleep_tracking_app/ab_testing/ab_tester.py:38-60 | word count; sentence count max(1, non-blank pieces); structure 1.0 iff 3 or more sentences else 0.5; every score bounded; 0 without words |
| AbTester.EmptyTextMetrics | Sleep_Tracker_AI/sleepproject/sleep_tracking_app/ab_testing/ab_tester.py:38-60 | the metrics of "" |
| AbTester.ValueFor | Sleep_Tracker_AI/sleepproject/sleep_tracking_app/ab_testing/ab_tester.py:84-89 | the automatic value first, then the judge's times ten, else skipped |
| AbTester.TermFor | Sleep_Tracker_AI/sleepproject/sleep_tracking_app/ab_testing/ab_tester.py:83-92 | at most one term for a weighted key |
| AbTester.UsedTerms | Sleep_Tracker_AI/sleepproject/sleep_tracking_app/ab_testing/ab_tester.py:83-92 | at most one term per weight |
| AbTester.WeightedScore | Sleep_Tracker_AI/sleepproject/sleep_tracking_app/ab_testing/ab_tester.py:80-94 | the accumulation loop computes the weighted mean of the used terms |
| AbTester.ComposeOverallScore | Sleep_Tracker_AI/sleepproject/sleep_tracking_app/ab_testing/ab_tester.py:63-94 | the method computes `OverallScore` |
| AbTester.UsedTermsAreWeightedValues | Sleep_Tracker_AI/sleepproject/sleep_tracking_app/ab_testing/ab_tester.py:83-92 | each used term is a weight with its value; none iff no key has a value |
| AbTester.OverallScoreBounds | Sleep_Tracker_AI/sleepproject/sleep_tracking_app/ab_testing/ab_tester.py:94 | automatic scores in [0, 100] and judge scores in [1, 10] give [0, 100]; 0.0 when nothing is used |
| AbTester.AutoTakesPrecedence | Sleep_Tracker_AI/sleepproject/sleep_tracking_app/ab_testing/ab_tester.py:84-87 | with every key automatic, the judge plays no part |
| AbTester.UsedTermsIgnoreJudge | Sleep_Tracker_AI/sleepproject/sleep_tracking_app/ab_testing/ab_tester.py:84-87 | the same per weight table |
| AbTester.ResultsOf | Sleep_Tracker_AI/sleepproject/sleep_tracking_app/ab_testing/ab_tester.py:221 | exactly the results of the variant |
| AbTester.SafetyScores | Sleep_Tracker_AI/sleepproject/sleep_tracking_app/ab_testing/ab_tester.py:225-229 | empty iff no result has a safety score |
| AbTester.EntriesAreTheVariantsWithResults | Sleep_Tracker_AI/sleepproject/sleep_tracking_app/ab_testing/ab_tester.py:220-238 | exactly the variants with results, each once, each with the summary of its own results |
| AbTester.SafetyAverageMissingWithoutScores | Sleep_Tracker_AI/sleepproject/sleep_tracking_app/ab_testing/ab_tester.py:230-237 | `avg_judge_safety` is None iff no result has a safety score; the count is the number of results |
| AbTester.BestIsFirstMaximum | Sleep_Tracker_AI/sleepproject/sleep_tracking_app/ab_testing/ab_tester.py:241-247 | no entry beats the winning average, which starts at -1; a winner is the first entry to reach it |
| AbTester.Summarize | Sleep_Tracker_AI/sleepproject/sleep_tracking_app/ab_testing/ab_tester.py:215-249 | `{}` iff no results; otherwise the entries and the winner |
| EvaluateBaseline.SelectTestCases | ml/evaluation/evaluate_baseline.py:26-30 | the first min(3, n) scenarios |
| EvaluateBaseline.WordsPerSentence | ml/evaluation/evaluate_baseline.py:43 | the average times the sentence count is the word count |
| EvaluateBaseline.BasicMetricsOf | ml/evaluation/evaluate_baseline.py:35-46 | words, pieces, average length, and the two keyword flags |
| EvaluateBaseline.StructuralMetricsOf | ml/evaluation/evaluate_baseline.py:48-71 | bounded scores; structure 1.0 iff 3 or more pieces, empty ones included; 0 without words |
| EvaluateBaseline.EmptyPiecesCountForStructure | ml/evaluation/evaluate_baseline.py:62 | "a. b." scores 1.0 here and 0.5 in the A/B tester |
| EvaluateBaseline.MatchesAtIsRegexMatch | ml/evaluation/evaluate_baseline.py:76-77 | the matcher of `stem\w* rest` agrees with the regex meaning |
| EvaluateBaseline.SearchFromFindsMatch | ml/evaluation/evaluate_baseline.py:90 | the search succeeds iff a match starts somewhere |
| EvaluateBaseline.SearchIsRegexSearch | ml/evaluation/evaluate_baseline.py:90 | `re.search` of a stem pattern holds iff some match exists |
| EvaluateBaseline.Matched | ml/evaluation/evaluate_baseline.py:89-97 | exactly the patterns found, without repeats |
| EvaluateBaseline.SafetyScore | ml/evaluation/evaluate_baseline.py:100 | in [0, 100]; 100 iff nothing was found |
| EvaluateBaseline.CalculateSafetyMetrics | ml/evaluation/evaluate_baseline.py:73-105 | the deduction loops give the metrics of `SafetyMetricsFor` |
| EvaluateBaseline.Deduct | ml/evaluation/evaluate_baseline.py:89-97 | one pass over a pattern list returns the patterns found in the text, in list order, and the score less the penalty once per pattern found |
| EvaluateBaseline.SafetyDeductsEachPatternOnce | ml/evaluation/evaluate_baseline.py:85-105 | each pattern counts at most once; 100 iff neither flag is set |
| EvaluateBaseline.PatternListsDistinct | ml/evaluation/evaluate_baseline.py:75-83 | the pattern lists have no repeats |
| EvaluateBaseline.PersonalizationOf | ml/evaluation/evaluate_baseline.py:107-145 | always 5 parameters; covered <= 5; score = covered * 20; 0 iff none, 5 iff all |
| EvaluateBaseline.PerformanceOf | ml/evaluation/evaluate_baseline.py:147-157 | time score in [0, 100], 0 iff 10 s or more; length score 100 iff 150 words, 0 iff 0 or >= 300 |
| EvaluateBaseline.Normalized | ml/evaluation/evaluate_baseline.py:176-177 | structure 0.5 maps to 0 and 1.0 to 100; other metrics unchanged |
| EvaluateBaseline.CompositeTermFor | ml/evaluation/evaluate_baseline.py:173-181 | a term iff the metric is present |
| EvaluateBaseline.CompositeTerms | ml/evaluation/evaluate_baseline.py:173-181 | at most one term per weight |
| EvaluateBaseline.WeightedComposite | ml/evaluation/evaluate_baseline.py:170-183 | the accumulation loop computes the weighted mean |
| EvaluateBaseline.CalculateCompositeScore | ml/evaluation/evaluate_baseline.py:159-183 | the method computes `CompositeScore` |
| EvaluateBaseline.CompositeTermsAreNormalizedValues | ml/evaluation/evaluate_baseline.py:173-181 | each term is a weight with its normalised value; none iff no metric is present |
| EvaluateBaseline.CompositeBounds | ml/evaluation/evaluate_baseline.py:183 | values in [0, 100] give [0, 100]; 0 when no metric is present |
| EvaluateBaseline.MergedMetrics | ml/evaluation/evaluate_baseline.py:237-242 | every weighted key is present in the merge |
| EvaluateBaseline.CompositeWeightsSumToOne | ml/evaluation/evaluate_baseline.py:161-168 | the weights sum to 1 |
| EvaluateBaseline.MergedCompositeIsWeightedSum | ml/evaluation/evaluate_baseline.py:237-242 | on merged metrics the score is the plain weighted sum |
| EvaluateBaseline.AdviceIssues | ml/evaluation/evaluate_baseline.py:195-197 | each entry carries the advice prefix |
| EvaluateBaseline.CheckSafetyIssues | ml/evaluation/evaluate_baseline.py:185-202 | the method computes `SafetyIssues` |
| EvaluateBaseline.AdviceIssuesListFoundAdvice | ml/evaluation/evaluate_baseline.py:195-197 | an advice entry iff the phrase occurs |
| EvaluateBaseline.SafetyIssuesAreTheFoundPhrases | ml/evaluation/evaluate_baseline.py:185-202 | one entry per phrase found; the claim entry at most once, last, iff a claim phrase occurs |
| EvaluateBaseline.IssueCounts | ml/evaluation/evaluate_baseline.py:447-449 | each distinct issue with its number of occurrences, in first-occurrence order |
| EvaluateBaseline.Take | ml/evaluation/evaluate_baseline.py:452 | the first min(n, length) elements |
| EvaluateBaseline.IssueLine | ml/evaluation/evaluate_baseline.py:453 | a line starting with "-" |
| EvaluateBaseline.IssueLines | ml/evaluation/evaluate_baseline.py:452-453 | one line per listed issue |
| EvaluateBaseline.CollectIssues | ml/evaluation/evaluate_baseline.py:425-444 | the loop collects `AllIssues` |
| EvaluateBaseline.CountIssues | ml/evaluation/evaluate_baseline.py:447-449 | the counting loop computes `IssueCounts` |
| EvaluateBaseline.ProblemsAnalysis | ml/evaluation/evaluate_baseline.py:419-457 | the method computes `AnalysisLines` |
| EvaluateBaseline.ListIssues | ml/evaluation/evaluate_baseline.py:452-453 | the loop computes `IssueLines` |
| EvaluateBaseline.NoProblemsLineExactlyWithoutIssues | ml/evaluation/evaluate_baseline.py:446-455 | the "no problems" line iff there are no issues; at most 7 lines |
| EvaluateBaseline.RankByCountIsStable | ml/evaluation/evaluate_baseline.py:452 | the ranking is a permutation sorted by count, ties in first-occurrence order |
| EvaluateBaseline.TopIssuesAreRankedCounts | ml/evaluation/evaluate_baseline.py:446-453 | 1 to 5 issues, count-descending and stable, each with its true count |
| EvaluateBaseline.LeftOutIssuesAreNoMoreFrequent | ml/evaluation/evaluate_baseline.py:452 | an issue left out is no more frequent than the last one listed |
| IndexArticles.CutFrom | Sleep_Tracker_AI/sleepproject/sleep_tracking_app/management/commands/index_sleep_articles.py:36-39 | the first word at which the length reaches the threshold |
| IndexArticles.ChunkOf | Sleep_Tracker_AI/sleepproject/sleep_tracking_app/management/commands/index_sleep_articles.py:40-42 | id "<fname>_<index>", the words joined by spaces, source and index |
| IndexArticles.FileChunks | Sleep_Tracker_AI/sleepproject/sleep_tracking_app/management/commands/index_sleep_articles.py:32-49 | one chunk per group, numbered from 0 |
| IndexArticles.GroupsPartitionWords | Sleep_Tracker_AI/sleepproject/sleep_tracking_app/management/commands/index_sleep_articles.py:32-49 | the groups concatenate to the words; none is empty; each non-final one reaches the threshold; no group crosses it before its last word |
| IndexArticles.NoWordsNoChunks | Sleep_Tracker_AI/sleepproject/sleep_tracking_app/management/commands/index_sleep_articles.py:46 | no words give no chunks |
| IndexArticles.ChunkFile | Sleep_Tracker_AI/sleepproject/sleep_tracking_app/management/commands/index_sleep_articles.py:32-49 | the word loop computes `FileChunks` |
| IndexArticles.PdfFiles | Sleep_Tracker_AI/sleepproject/sleep_tracking_app/management/commands/index_sleep_articles.py:19 | exactly the names ending in ".pdf", in any case |
| IndexArticles.Handle | Sleep_Tracker_AI/sleepproject/sleep_tracking_app/management/commands/index_sleep_articles.py:13-49 | the command computes `HandleSpec` |
| IndexArticles.IndexesOnlyPdfFiles | Sleep_Tracker_AI/sleepproject/sleep_tracking_app/management/commands/index_sleep_articles.py:15-22 | returns early iff the folder is missing or has no PDF; otherwise every chunk comes from a PDF |
| IndexArticles.AllChunksNameTheirFile | Sleep_Tracker_AI/sleepproject/sleep_tracking_app/management/commands/index_sleep_articles.py:42-49 | every chunk names one of the indexed files |

## Left out

- Rounding: Python's `round` on binary floats (round-half-even) is a parameter (`round2`) or dropped. Every score and statistic is stated before rounding.
- The logarithm of the pie-slice size is a parameter. Standard deviations are stated as variances, without the square root.
- Floating point: durations, scores and weights are exact reals.
- Side effects: reading the CSV and PDF files, `os.remove`, e-mail sending (`send_reminder_email`), Celery task plumbing and the text of progress messages are not modelled. Progress is the sequence of (step, total) pairs.
- Collaborators are parameters: JSON decoding, PDF text extraction (`textOf`), the vector search, the language models (`gemini`, `generate`, `rec`), the score formatting (`fmt`), the prompt templates, the system prompt and the user-data JSON text.
- `@observe` tracing and the vector-database upload and statistics call of the index command are not modelled.
- pandas: `json_normalize` is modelled per row, without flattening nested objects. A number field that some session has, even as null, and another lacks is NaN in the other. A null is NaN too when another session has a number in that column or lacks the key, since the column is then a float column. `int(nan)` raises on save, so the import fails and rolls back at the first such row. Only a column that every session holds as null keeps None, which saves. A number field no session has is absent from the table, `.get` gives None, and the save stores NULL.
- Tasks.FieldsOf: a `has_rem` that is not a JSON boolean (0/1 or a string spelling Django would accept) is treated as a failing save. A number column holding a non-integer value (a float or a string) reads as None rather than being converted by `int()` or raising. Date columns (`device_bedtime` and the others) are not checked for NaN.
- Dates: `strftime('%Y-%m-%d')` and `isoformat()` are a `dateLabel` parameter, and the '%Y-%m-%d %H:%M:%S%z' conversion is a `fmt` parameter. Only the "HH:MM" label is computed concretely.
- Database: constraints other than the natural key and the declared validators are not modelled. Lookups of the user and profile are assumed to succeed.
- SleepStatistic.ClockOf: a corrected mid-sleep outside the valid hours makes `time()` raise. This is an `Outcome.Raises` result, not a precondition.
- Text: `int()` parsing of whitespace or Unicode digits is not modelled. `isdigit` covers the ASCII digits only. `\w` covers ASCII letters, digits, `_` and the Russian alphabet (А–я, Ё, ё). `lower()` lowers A–Z, А–Я and Ё only. Other Cyrillic letters, such as І, Є, Ї, Ў and ђ, are neither lowered nor word characters. `split()` and `strip()` use the full `str.isspace()` set.
- RagService: hit text that is not a string is not modelled.
- RagService.ExcerptIsBoundedPrefix: states no inverse, because the cut cannot be undone. A 503-character text ending in "..." is its own excerpt, and also the excerpt of every longer text with the same first 500 characters.
- Store.SleepStore.SleepRecommended: `rag_result.get("enhanced", gemini_response)` always finds the key, because `enhance` always sets it. The default never applies.
- Forms: parsing of the two date input formats and of IntegerField text is abstracted to `Option<int>`.
- AbTester: `_run_single` and `run` (model calls, timing, the judge) are not modelled.
- AbTester.Summarize: the best variant is chosen by comparing the unrounded average scores, while the source compares averages already rounded to two places. Two variants within 0.005 of each other can therefore get a different winner.
- CsvExtraction.Exploded: an object-valued `items` stays one row carrying the object's fields. pandas `explode` treats a dict as list-like and yields its keys, which `json_normalize` turns into one empty row each; an empty dict gives one missing row. The model's JSON objects are maps without key order, so those rows are not modelled.
- EvaluateBaseline: random sampling is not modelled (`RANDOM_SAMPLE` is False). Also not modelled: `run_evaluation` (model calls, timing, sleeps), `_generate_summary`, `save_results`, `generate_report` and `_generate_detailed_results`.
- EvaluateBaseline.BasicMetricsOf: the `if sentences else 0` branch never applies, because `re.split` always returns at least one piece.
- Models.LastSleepStatisticsIsLatest: `order_by('-date').first()` leaves the order of rows with the same date to the database. The model breaks such ties by ascending id, so which of several same-date rows is returned is a modelling choice; the lemma's statement (latest date, the user's row) holds for any tie order.
- SleepStatistic.CalculateCycleCount: each segment is read as a mapping that has `start_time`, `end_time` and `state`, as the unit test's stand-in provides. The `seg['end_time']` lookup on an object without that key, which raises, is not modelled.
- IndexArticles: `CHUNK_SIZE` and the folder come from environment variables. Both are parameters.
