# Exam reports and dashboard cache — a Dafny model

This project models two parts of the exam platform's FastAPI back end and
proves properties of them.

**Exam performance report** (`handlers/reports_interface.py`,
`handlers/reports_strategy.py`). A report `Context` holds an exam-attempt data
frame, a list of report strategies and the report data built so far. It works
in three steps:

1. It keeps only each student's latest attempt.
2. It runs every strategy's `calculate` on the filtered rows, in order.
3. It merges each strategy's chunk into its report data.

There are five strategies:

- descriptive statistics: the per-student totals with their minimum, maximum
  and range, and per question level and per subject the question count,
  summed scores and ratios;
- overview: the counts of distinct students, topics and questions, the
  distinct subjects and courses, and the levels sorted in Bloom-taxonomy
  order;
- histogram: each student's summed points and question points;
- normalized scores per (course, subject) and per (course, topic), nested by
  course in the `restructure_report` loop;
- scores per (course, question type, level): type totals are joined back on,
  accuracy and contribution percentages are guarded, and the
  `restructure_for_plotly` loop lays them out in per-course lists.

**Dashboard cache** (`handlers/dashboard_strategy.py`). The dashboard cache
strategies are cache-aside lookups in Redis. The exam dashboard is one string
key. The course dashboards share one hash, with one field `course:{id}` per
course. When the entry is there it is decoded and returned. Otherwise the data
fetched from the database is JSON-encoded, stored and returned.
`prepare_for_redis_hash` turns a dict's values into strings.

The model is written as follows:

- A data frame is a `seq<Row>`.
- A group-by is a map, checked against a reference sum over the filtered
  rows (`Frames.SumWhere`).
- A division is an exact unevaluated fraction: `ExamFrame.Fraction`.
- The loops of the source are Dafny methods proved against specification
  functions. These are `restructure_report`, `restructure_for_plotly`,
  `do_business_logic` and `prepare_for_redis_hash`.
- The report `Context` and the Redis client are classes whose fields the
  methods update.
- Redis is two maps, one for string keys and one for hash keys. A command on
  a key of the other kind gets `WRONGTYPE`, and the model turns that into an
  error result.
- `json.dumps`/`json.loads` are a codec parameter (`JsonValue.Codec`). Lemmas
  that need a round trip require it to be lawful.
- The database queries `get_exam_data()` and `get_course_data(id)` are the
  parameter `fetched`.

## Model

| member | source | states |
|---|---|---|
| Frames.GroupSum | handlers/reports_strategy.py:108-115 | a `group_by(...).agg(col.sum())` has one entry per key present in the frame, and each entry is the sum of that key's rows |
| Frames.GroupMax | handlers/reports_interface.py:35-41 | the per-user `attempt.max()` has one entry per user; each value is the attempt of one of the user's rows and bounds all of them |
| Frames.Distinct | handlers/reports_strategy.py:88-92 | `unique()` lists each value of the column once, and all of them |
| Frames.IndexOf | handlers/reports_strategy.py:271 | `list.index` finds the first position holding the value |
| Frames.NUniqueBounds | handlers/reports_strategy.py:87-91 | `n_unique()` is at most the number of rows, and 0 only for an empty frame |
| Frames.GroupsPartitionSum | handlers/reports_strategy.py:108-115 | the group sums over all groups add up to the column's total: no row is lost or counted twice |
| Frames.GroupsCoarsenSum | handlers/reports_strategy.py:186-193 | summing finer groups by a coarser key gives the coarser group's sum |
| Frames.SumWhereAbsent | handlers/reports_strategy.py:263-269 | a group with no rows sums to 0 |
| ExamFrame.GuardedPercentage | handlers/reports_strategy.py:201-210 | `when(den > 0).then(num / den * 100).otherwise(0.0)`: 0 for a non-positive denominator, and for a positive one exactly the unguarded percentage `Percentage(num, den)` |
| ReportsInterface.KeepLatest | handlers/reports_interface.py:45-49 | the filter keeps at most the frame's rows, and every kept row is at its user's recorded latest attempt; which rows and how many copies `KeepLatestCounts` states |
| ReportsInterface.KeepLatestCounts | handlers/reports_interface.py:45-49 | the filter keeps exactly the rows whose attempt equals their user's latest attempt, with their multiplicities |
| ReportsInterface.LatestAttempts | handlers/reports_interface.py:34-51 | `_get_latest_attempts_df` keeps each row whose attempt is the maximum of its user's attempts, and only those |
| ReportsInterface.LatestIsMaximum | handlers/reports_interface.py:35-47 | filtering on the joined `latest_attempt` column is filtering on the user's maximum attempt |
| ReportsInterface.LatestAttemptsAreMaximal | handlers/reports_interface.py:45-49 | every kept row is a row of the frame from its user's latest attempt |
| ReportsInterface.LatestAttemptsSubMultiset | handlers/reports_interface.py:45-49 | the filter only removes rows |
| ReportsInterface.LatestAttemptsKeepsLatest | handlers/reports_interface.py:45-49 | every row of a latest attempt is kept |
| ReportsInterface.LatestAttemptsKeepsUsers | handlers/reports_interface.py:34-51 | the filtered frame has exactly the users of the original frame |
| ReportsInterface.LatestAttemptsIdempotent | handlers/reports_interface.py:34-51 | filtering an already filtered frame changes nothing |
| ReportsInterface.RunStrategies | handlers/reports_interface.py:23-26 | the strategy loop: merging with `update` never loses a key already in `exam_data`; its failure, overwrite and keep behaviour is stated by `RunFailureStays`, `RunFrom`, `RunLaterOverwrites`, `RunKeepsOtherKeys` and `EmptyFrameRunFails` |
| ReportsInterface.RunFailureStays | handlers/reports_interface.py:23-26 | once a strategy raises, the later strategies change nothing |
| ReportsInterface.RunFrom | handlers/reports_interface.py:23-26 | running into existing report data is merging into it what a run from `{}` yields; whether and where the run fails does not depend on that data |
| ReportsInterface.RunLaterOverwrites | handlers/reports_interface.py:26 | a chunk key holds the value of the last strategy that reports it (`dict.update` lets the newer value win) |
| ReportsInterface.RunKeepsOtherKeys | handlers/reports_interface.py:26 | a key no strategy reports keeps the value it had |
| ReportsInterface.EmptyFrameRunFails | handlers/reports_interface.py:23-26 | with the descriptive statistics among the strategies, a run over a frame without rows stops with an error |
| ReportsInterface.EmptyExamReportFails | handlers/reports_interface.py:20-26 | an exam without attempts leaves no rows after the latest-attempt filter, and the report then raises when it includes the descriptive statistics |
| ReportsInterface.RunTwiceSame | handlers/reports_interface.py:9-32 | `exam_data` lives on the context, so a second successful `do_business_logic` gives the same data |
| ReportsInterface.Context.constructor | handlers/reports_interface.py:6-10 | the context stores the frame and the strategies and starts with empty report data |
| ReportsInterface.Context.DoBusinessLogic | handlers/reports_interface.py:20-32 | filters to the latest attempts, merges every strategy's chunk in order into `exam_data`, and returns the data with the filtered rows, or the first strategy's error, after which `exam_data` keeps what was merged before it |
| ReportsStrategy.ChunkOf | handlers/reports_interface.py:25 | `strategy.calculate(df)`: a successful chunk has exactly the strategy's chunk names, and only the overview and the descriptive statistics can fail; `ChunkKeys` gives the exact failure conditions |
| ReportsStrategy.ChunkKeys | handlers/reports_strategy.py:69-73 | each strategy reports under its own fixed chunk names; the overview fails exactly when its level sort fails, the descriptive statistics fail (with `NoSummaryRow`) exactly on an empty frame, and no other strategy fails |
| ReportsStrategy.Calculate | handlers/reports_interface.py:25 | `strategy.calculate(df)`, with the restructuring loops run as methods, yields the strategy's chunk |
| ExamHistogram.HistogramBoxplot | handlers/reports_strategy.py:106-120 | one entry per student present, holding the student's summed points and summed question points |
| ExamHistogram.TotalsAreGroupSums | handlers/reports_strategy.py:108-115 | adding up the histogram's totals over some students gives their group sums |
| ExamHistogram.HistogramPartitionsPoints | handlers/reports_strategy.py:108-115 | the students' totals add up to the frame's total points and their maxima to its total question points |
| ExamHistogram.HistogramSize | handlers/reports_strategy.py:106-120 | there are as many entries as distinct students: at most the number of rows, and none only for an empty frame |
| DescriptiveStatistics.MinOf | handlers/reports_strategy.py:24 | the minimum is one of the values and bounds all of them from below |
| DescriptiveStatistics.MaxOf | handlers/reports_strategy.py:25 | the maximum is one of the values and bounds all of them from above |
| DescriptiveStatistics.Totals | handlers/reports_strategy.py:8-15 | the `total_score` column of `student_scores`, one value per student |
| DescriptiveStatistics.UsersPresent | handlers/reports_strategy.py:8-15 | `student_scores` is empty exactly when the frame is |
| DescriptiveStatistics.Summary | handlers/reports_strategy.py:17-31 | row 0 of the summary exists exactly for a non-empty frame, and then min is at most max and range is max minus min; `SummaryMeaning` ties min and max to the student totals |
| DescriptiveStatistics.SummaryMeaning | handlers/reports_strategy.py:17-31 | taking row 0 of the summary fails with `NoSummaryRow` exactly for an empty frame; otherwise its min and max are students' totals bounding every total, and its range is max minus min |
| DescriptiveStatistics.SummaryBounds | handlers/reports_strategy.py:17-31 | on a non-empty frame the min and max are attained by some student and bound all student totals, and the range is max minus min |
| DescriptiveStatistics.SummaryRangeNonNegative | handlers/reports_strategy.py:27-29 | the range is never negative |
| DescriptiveStatistics.GroupStatsBy | handlers/reports_strategy.py:33-51 | one statistics record per question level (or subject) present in the frame |
| DescriptiveStatistics.GroupStatsMeaning | handlers/reports_strategy.py:36-44 | a group's `question_count` is its number of distinct questions (at least 1, at most its rows), its aggregates are its sums, and its ratio and percentage are those sums divided |
| DescriptiveStatistics.ScoreOverGroupSums | handlers/reports_strategy.py:38 | adding up `aggregated_students_score` over some groups gives their group sums |
| DescriptiveStatistics.GroupStatsPartitionScore | handlers/reports_strategy.py:33-40 | the levels' `aggregated_students_score` add up to the frame's total points |
| DescriptiveStatistics.SubjectsSummary | handlers/reports_strategy.py:53-67 | one record per subject present; its statistics are the subject group's, and its name is the name on one of the subject's rows |
| DescriptiveStatistics.SubjectNamesExist | handlers/reports_strategy.py:57 | `subject_name.unique().first()` is the name carried by some row of that subject |
| DescriptiveStatistics.CalculateDescriptiveStatistics | handlers/reports_strategy.py:6-75 | the strategy raises (`NoSummaryRow`) exactly on an empty frame; otherwise the summary is `SummaryMeaning`'s and the level and subject chunks have exactly the frame's levels and subjects as keys |
| BloomLevels.LevelOrderNoDuplicates | handlers/reports_strategy.py:79-86 | `LEVEL_ORDER` names each Bloom level once |
| BloomLevels.Rank | handlers/reports_strategy.py:101 | `LEVEL_ORDER.index(l)` is a position holding `l` |
| BloomLevels.RankOfIndex | handlers/reports_strategy.py:101 | in a list without repeats, the index of the element at position j is j |
| BloomLevels.Insert | handlers/reports_strategy.py:101 | inserting a known level into a ranked list keeps it ranked and adds exactly that element |
| BloomLevels.InsertStrict | handlers/reports_strategy.py:101 | inserting a new level into a strictly ranked list keeps it strictly ranked |
| BloomLevels.SortLevels | handlers/reports_strategy.py:101 | sorting known levels by their index gives a ranked permutation, strictly ranked when the input has no repeats |
| BloomLevels.FirstUnknown | handlers/reports_strategy.py:101 | finds the first level whose `LEVEL_ORDER.index` raises, or reports that none does |
| BloomLevels.SortByIndex | handlers/reports_strategy.py:101 | `sorted(levels, key=order.index)` succeeds exactly when all levels are in the order; then it is a ranked permutation of them; otherwise the error is the first level outside the order |
| BloomLevels.LevelsFrom | handlers/reports_strategy.py:79-86 | the levels of a set from a given rank on, in taxonomy order |
| BloomLevels.StrictlyRankedUnique | handlers/reports_strategy.py:101 | two strictly ranked lists with the same elements are equal |
| BloomLevels.SortByLevelIsTaxonomyOrder | handlers/reports_strategy.py:79-101 | sorting distinct known levels yields exactly the levels present, in the order remember, understand, apply, analyze, evaluate, create |
| ExamOverview.CalculateOverview | handlers/reports_strategy.py:77-104 | the overview fails only with a level of the frame that is outside `LEVEL_ORDER`; on success `questions_levels` is a taxonomy-ordered permutation of the distinct levels; its full meaning is stated by `OverviewFailsOnUnknownLevel`, `OverviewLevelsInTaxonomyOrder` and `OverviewCounts` |
| ExamOverview.DistinctLevelsKnown | handlers/reports_strategy.py:92 | all distinct levels are in `LEVEL_ORDER` exactly when every row's level is |
| ExamOverview.OverviewFailsOnUnknownLevel | handlers/reports_strategy.py:92-101 | the overview is computed exactly when every row's level is in the taxonomy; otherwise the error names some row's level outside it |
| ExamOverview.OverviewLevelsInTaxonomyOrder | handlers/reports_strategy.py:92-101 | `questions_levels` is each level of the frame once, in taxonomy order |
| ExamOverview.OverviewCounts | handlers/reports_strategy.py:87-91 | the counts are the numbers of distinct students, topics and questions, each at most the rows and 0 only for an empty frame; subjects and courses are each listed once, and all of them |
| SubjectsAndTopics.NormalizedScores | handlers/reports_strategy.py:136-153 | one row per (course, item) pair of the frame, each pair once, with the pair's obtained over possible points times 100, unguarded |
| SubjectsAndTopics.RestructureReport | handlers/reports_strategy.py:155-171 | the loop builds the nested map its specification function `ReportOf` describes |
| SubjectsAndTopics.ReportKeys | handlers/reports_strategy.py:161-169 | the report's courses are exactly the rows' courses, and under each course exactly that course's items |
| SubjectsAndTopics.ReportLastWins | handlers/reports_strategy.py:169 | `final_report_data[course][item]` holds the score of the last row with that pair |
| SubjectsAndTopics.ScoresReport | handlers/reports_strategy.py:124-128 | normalize then restructure for one grouping column: the report's keys are exactly the courses of the frame's pairs; the items and scores under them are stated by `ScoresReportMeaning` |
| SubjectsAndTopics.ScoresReportMeaning | handlers/reports_strategy.py:122-171 | the nested report has a key for each course of the frame, under it each item of that course with the pair's normalized score, and no entry that is not a pair of the frame |
| SubjectsAndTopics.PairCourses | handlers/reports_strategy.py:141 | grouping by course and a second column, the courses of the groups are exactly the courses of the rows |
| SubjectsAndTopics.SubjectsTopicsOf | handlers/reports_strategy.py:122-134 | the strategy's two chunks: the subject report and the topic report are both keyed by exactly the exam's courses |
| SubjectsAndTopics.CalculateBySubjectsAndTopics | handlers/reports_strategy.py:122-134 | the two restructured reports, by subject and by topic |
| StringOrder.LessIrreflexive | handlers/reports_strategy.py:225 | no string sorts before itself |
| StringOrder.LessTransitive | handlers/reports_strategy.py:225 | the string order is transitive |
| StringOrder.LessTotal | handlers/reports_strategy.py:225 | of two different strings one sorts first |
| StringOrder.SortedDistinct | handlers/reports_strategy.py:225 | a strictly sorted list has no repeats |
| StringOrder.InsertSorted | handlers/reports_strategy.py:225 | inserting a new string into a strictly sorted list keeps it sorted and adds just that string |
| StringOrder.SortedUnique | handlers/reports_strategy.py:225 | `unique().sort()` is strictly ascending and has exactly the input's values |
| TypesWithLevels.LongFrame | handlers/reports_strategy.py:175-183 | `df_long`: every row is a (course, type, level) group of the frame carrying that group's summed points and question points, and every group of the frame has a row |
| TypesWithLevels.LongRowsOf | handlers/reports_strategy.py:175-181 | one `df_long` row per listed group, carrying the group's sums |
| TypesWithLevels.LongRowsTypeSum | handlers/reports_strategy.py:186-193 | summing `df_long` over one question type adds up the sums of that type's groups |
| TypesWithLevels.QTypeTotalsAreTypeSums | handlers/reports_strategy.py:186-193 | `qtype_total_raw_score` and `qtype_total_max_score` equal the type's sums over the original frame |
| TypesWithLevels.CombinedFrame | handlers/reports_strategy.py:196-212 | the left join keeps every long row and attaches its type's totals and the two guarded percentages |
| TypesWithLevels.CombinedRowMeaning | handlers/reports_strategy.py:196-212 | a combined row carries its type's totals over the whole frame; accuracy is 0 when the max score is not positive and contribution is 0 when the type total is not positive, and otherwise each is the score over that denominator, times 100 |
| TypesWithLevels.EmptyBlooms | handlers/reports_strategy.py:263-269 | a new level starts with three lists of `len(courses)` zeros |
| TypesWithLevels.BloomsOf | handlers/reports_strategy.py:256-276 | every level's three lists have one slot per course |
| TypesWithLevels.CoursesKnownPrefix | handlers/reports_strategy.py:271 | the courses of a prefix of the rows are still on the course axis |
| TypesWithLevels.BloomsKeys | handlers/reports_strategy.py:263-269 | `blooms_data` has a key for exactly the levels of the type's rows |
| TypesWithLevels.BloomsLastWins | handlers/reports_strategy.py:271-276 | the slot of a (level, course) holds the values of the last row with that pair |
| TypesWithLevels.BloomsAbsentCourse | handlers/reports_strategy.py:264-269 | a course with no row at a level keeps its zeros |
| TypesWithLevels.TypeGroup | handlers/reports_strategy.py:228-230 | a question type's group holds rows of the combined frame of that type only |
| TypesWithLevels.EntryOf | handlers/reports_strategy.py:247-284 | the object of a type is named after it and has one slot per course in every list |
| TypesWithLevels.CourseColumn | handlers/reports_strategy.py:225 | the `course_abbreviation` column, row by row |
| TypesWithLevels.Courses | handlers/reports_strategy.py:225 | the course axis is strictly ascending and holds exactly the courses of the combined frame |
| TypesWithLevels.TypeGroupNonEmpty | handlers/reports_strategy.py:228-230 | a type present in the frame has at least one row |
| TypesWithLevels.EntriesOf | handlers/reports_strategy.py:247-284 | one object per listed type, in that order, each with one slot per course |
| TypesWithLevels.PlotlyOf | handlers/reports_strategy.py:222-286 | every level of every object has lists of the course axis's length |
| TypesWithLevels.BuildBlooms | handlers/reports_strategy.py:256-276 | the inner loop builds `blooms_data` as its specification function `BloomsOf` describes |
| TypesWithLevels.RestructureForPlotly | handlers/reports_strategy.py:222-286 | the outer loop builds `final_data` as its specification function `PlotlyOf` describes |
| TypesWithLevels.PlotlyOneEntryPerType | handlers/reports_strategy.py:228-247 | exactly one object per question type of the frame |
| TypesWithLevels.PlotlyEntryShape | handlers/reports_strategy.py:233-284 | an object's totals are its type's first row's (`first()`), and its levels are built from its type's rows |
| TypesWithLevels.GroupTriplesUnique | handlers/reports_strategy.py:175-177 | a type's group has no (course, level) pair twice |
| TypesWithLevels.GroupCoursesKnown | handlers/reports_strategy.py:271 | every course of a type's group is on the course axis, so `courses.index` never raises |
| TypesWithLevels.GroupCell | handlers/reports_strategy.py:256-276 | a row's values appear at its level, at its course's index |
| TypesWithLevels.PlotlyCell | handlers/reports_strategy.py:247-284 | each combined row's raw score, accuracy and contribution appear in its type's object, at its level, at its course's index |
| TypesWithLevels.PlotlyAbsentCourse | handlers/reports_strategy.py:264-269 | a course with no row of that type and level shows 0 in all three lists |
| TypesWithLevels.CombinedTriples | handlers/reports_strategy.py:175-183 | `df_long` has one row per distinct (course, type, level) of the frame, each once |
| TypesWithLevels.CombinedAt | handlers/reports_strategy.py:175-212 | the combined row of a (course, type, level) group carries that group's sums |
| TypesWithLevels.TypesWithLevelsCell | handlers/reports_strategy.py:173-286 | for each (course, type, level) of the frame, the output shows at that type, level and course index the group's summed points, its guarded accuracy and its guarded contribution to the type total |
| TypesWithLevels.TypesWithLevelsTotals | handlers/reports_strategy.py:186-253 | each object's `raw_score_sum` and `max_score_sum` are the sums over all rows of that type in the frame |
| TypesWithLevels.TypesWithLevelsCourses | handlers/reports_strategy.py:225 | the course axis is each course of the exam frame once, in ascending order |
| TypesWithLevels.CombinedTypes | handlers/reports_strategy.py:175-198 | the combined frame has exactly the exam's question types, as the left join keeps every `df_long` row |
| TypesWithLevels.TypesWithLevelsOf | handlers/reports_strategy.py:173-286 | the strategy's result: one object per question type of the exam and no other, with distinct names; cells, totals and course axis are stated by `TypesWithLevelsCell`, `TypesWithLevelsTotals` and `TypesWithLevelsCourses` |
| TypesWithLevels.CalculateByTypeWithLevels | handlers/reports_strategy.py:173-220 | the strategy, with the restructuring loop run as a method, yields `TypesWithLevelsOf` |
| PyFormat.DigitChar | handlers/dashboard_strategy.py:73 | a digit prints as its decimal character |
| PyFormat.NatToStringShape | handlers/dashboard_strategy.py:73 | `str` of a natural number is a non-empty run of digits with no leading zero except for 0 |
| PyFormat.ParseNatOfNatToString | handlers/dashboard_strategy.py:73 | reading back the digits of a natural number gives the number |
| PyFormat.IntRoundTrip | handlers/dashboard_strategy.py:100 | reading back `str(i)` of an integer gives the integer |
| PyFormat.IntToStringInjective | handlers/dashboard_strategy.py:73 | different integers print differently |
| PyFormat.OptionalIntToStringInjective | handlers/dashboard_strategy.py:73 | different course ids print differently, and no id prints as `None` |
| PyFormat.IntStartsWithSignOrDigit | handlers/dashboard_strategy.py:73 | `str` of an integer starts with a minus sign or a digit |
| RedisStore.Store.Exists | handlers/dashboard_strategy.py:43 | EXISTS counts the key once when it exists as a string or as a hash |
| RedisStore.Store.Get | handlers/dashboard_strategy.py:56 | GET returns the string under the key, nil when there is none, and WRONGTYPE for a hash |
| RedisStore.Store.Set | handlers/dashboard_strategy.py:51 | SET stores the string under the key, replacing a value of either kind, and touches no other key |
| RedisStore.Store.HExists | handlers/dashboard_strategy.py:74 | HEXISTS says whether the hash has the field, and answers WRONGTYPE for a string key |
| RedisStore.Store.HGet | handlers/dashboard_strategy.py:88 | HGET returns the field's value or nil, and WRONGTYPE for a string key |
| RedisStore.Store.HSet | handlers/dashboard_strategy.py:82 | HSET sets one field, creating the hash if need be, and leaves every other field and key alone; it answers WRONGTYPE for a string key |
| RedisStore.Store.HSetAdded | handlers/dashboard_strategy.py:82 | HSET's reply is 1 for a new field and 0 for an overwritten one |
| RedisStore.SetThenGet | handlers/dashboard_strategy.py:51-56 | after SET, GET reads the stored value and the key exists |
| RedisStore.HSetThenHGet | handlers/dashboard_strategy.py:82-88 | after HSET, HGET reads the stored value and HEXISTS answers yes |
| RedisStore.HSetKeepsOtherFields | handlers/dashboard_strategy.py:82 | HSET of one field leaves what HGET reads at every other (key, field) |
| RedisStore.HExistsIsHGetFound | handlers/dashboard_strategy.py:74-88 | HEXISTS is yes exactly when HGET finds a value |
| RedisStore.Redis.constructor | handlers/dashboard_strategy.py:4 | the client starts on an empty, well-formed database |
| RedisStore.Redis.Exists | handlers/dashboard_strategy.py:43 | the client's EXISTS is the store's |
| RedisStore.Redis.Get | handlers/dashboard_strategy.py:56 | the client's GET is the store's |
| RedisStore.Redis.Set | handlers/dashboard_strategy.py:51 | the client's SET updates its state as the store's SET does |
| RedisStore.Redis.HExists | handlers/dashboard_strategy.py:74 | the client's HEXISTS is the store's |
| RedisStore.Redis.HGet | handlers/dashboard_strategy.py:88 | the client's HGET is the store's |
| RedisStore.Redis.HSet | handlers/dashboard_strategy.py:82 | the client's HSET updates its state as the store's HSET does, and changes nothing on WRONGTYPE |
| DashboardCache.CacheKeysDistinct | handlers/dashboard_strategy.py:10-14 | `CACHE_KEYS` maps system, exam and course to `dashboard:system`, `dashboard:exam` and `dashboard:course`, three different keys |
| DashboardCache.ExamMissCaches | handlers/dashboard_strategy.py:35-53 | on a miss the exam call returns the fetched data and stores its encoding under `dashboard:exam`, changing nothing else |
| DashboardCache.ExamHitReadsCache | handlers/dashboard_strategy.py:35-59 | on a hit the exam call writes nothing and returns the decoded stored text; a hash under the key makes it fail with WRONGTYPE |
| DashboardCache.ExamSecondCallHits | handlers/dashboard_strategy.py:35-59 | after a successful call, the next exam call returns the same data, whatever the database now holds, and writes nothing |
| DashboardCache.CourseFieldInjective | handlers/dashboard_strategy.py:73 | two different course ids never share a hash field |
| DashboardCache.CourseValidateMeaning | handlers/dashboard_strategy.py:72-74 | the course check is true exactly when the hash has the course's field, and fails on a string key |
| DashboardCache.CourseCachedDataMeaning | handlers/dashboard_strategy.py:86-92 | the course read gives `None` for a missing or empty field and the decoded text otherwise |
| DashboardCache.CourseMissCaches | handlers/dashboard_strategy.py:65-84 | on a miss the course call returns the fetched data and writes only the course's field of `dashboard:course` |
| DashboardCache.CourseSecondCallHits | handlers/dashboard_strategy.py:65-92 | after a successful call for a course, the next call for that course returns the same data and writes nothing |
| DashboardCache.CourseOtherIdsUnaffected | handlers/dashboard_strategy.py:65-92 | a call for one course leaves what the check and the read give for every other course unchanged |
| DashboardCache.StrategiesDoNotInterfere | handlers/dashboard_strategy.py:35-92 | an exam call leaves every course's cache as it was, and a course call leaves the exam cache as it was |
| DashboardCache.ExamDashboardCache.constructor | handlers/dashboard_strategy.py:32-33 | a new exam strategy has no id context |
| DashboardCache.ExamAlgorithm | handlers/dashboard_strategy.py:35-59 | the exam `do_algorithm` never touches a hash and leaves every string key but `dashboard:exam` as it was; hits, misses and repeat calls are stated by `ExamMissCaches`, `ExamHitReadsCache` and `ExamSecondCallHits` |
| DashboardCache.ExamDashboardCache.DoAlgorithm | handlers/dashboard_strategy.py:35-40 | the exam `do_algorithm` returns and leaves the database as `ExamAlgorithm` describes |
| DashboardCache.ExamDashboardCache.Validate | handlers/dashboard_strategy.py:42-43 | true exactly when EXISTS counts the key |
| DashboardCache.ExamDashboardCache.BuildKey | handlers/dashboard_strategy.py:45-53 | returns the fetched data after SET of its encoding under the key |
| DashboardCache.ExamDashboardCache.GetCachedData | handlers/dashboard_strategy.py:55-59 | decodes what GET returns, failing on WRONGTYPE, nil or text that is not JSON |
| DashboardCache.CourseDashboardCache.constructor | handlers/dashboard_strategy.py:62-63 | a new course strategy has no id context |
| DashboardCache.CourseAlgorithm | handlers/dashboard_strategy.py:65-92 | the course `do_algorithm` never touches a string key and leaves every hash but `dashboard:course` as it was; hits, misses and other courses are stated by `CourseMissCaches`, `CourseSecondCallHits` and `CourseOtherIdsUnaffected` |
| DashboardCache.CourseDashboardCache.DoAlgorithm | handlers/dashboard_strategy.py:65-70 | the course `do_algorithm` returns and leaves the database as `CourseAlgorithm` describes for its id context |
| DashboardCache.CourseDashboardCache.Validate | handlers/dashboard_strategy.py:72-74 | HEXISTS of `course:{id_context}` |
| DashboardCache.CourseDashboardCache.BuildKey | handlers/dashboard_strategy.py:76-84 | returns the fetched data after HSET of its encoding under `course:{id_context}` |
| DashboardCache.CourseDashboardCache.GetCachedData | handlers/dashboard_strategy.py:86-92 | HGET of the course's field: `None` when missing or empty, otherwise the decoded text |
| DashboardCache.SystemDashboardCache.constructor | handlers/dashboard_strategy.py:17-18 | a new system strategy has no id context |
| DashboardCache.SystemDashboardCache.DoAlgorithm | handlers/dashboard_strategy.py:20-25 | both branches fall through: the result is `None` and nothing is read or written |
| DashboardCache.SystemDashboardCache.BuildKey | handlers/dashboard_strategy.py:27-29 | returns an empty dict |
| DashboardCache.PrepareForRedisHash | handlers/dashboard_strategy.py:94-101 | the result has exactly the input's keys; each list or dict value is its JSON text and every other value its `str` |
| DashboardCache.HashValue | handlers/dashboard_strategy.py:97-100 | the text of one value: an integer reads back from it; the other cases are stated by `HashValueReadsBack` |
| DashboardCache.HashValueReadsBack | handlers/dashboard_strategy.py:97-100 | a list or dict value decodes back from its text, an integer reads back from its decimal text, a string is unchanged, and `None` and booleans become `None`, `True` and `False` |

## Left out

- Floating point: mean, median, standard deviation (with `round(2)`) and mode
  of `exam_summary_data` are not modelled. Divisions are kept as exact
  fractions (`ExamFrame.Fraction`), and `round(1)`/`round(2)` are not applied.
  An unguarded division by 0 (polars' inf/NaN) is `Div(n, 0)`.
- Row orders: the `sort`s after the group-bys in `reports_strategy.py` (lines
  45, 66, 152 and 182), and polars' unspecified group order, are not modelled.
  Where a list is needed, groups come in order of first appearance. The
  lemmas about the results (`ScoresReportMeaning`, `TypesWithLevelsCell`,
  `TypesWithLevelsTotals`, `PlotlyOneEntryPerType`) hold for every order. The
  course axis (`unique().sort()`, line 225) is modelled and proved ascending.
- The shape of polars' output: `to_dicts()` lists of per-row dicts
  (`subjects_min_max_data`, the histogram) are maps keyed by the group key.
  `question_levels_summary_data`'s per-level dicts and the per-level
  `blooms_data` dicts are datatypes, and report chunk names are a datatype
  (`ReportsStrategy.KeyOf` gives the Python key).
- ReportsStrategy.ChunkKeys: states the chunks' names and when a strategy
  fails, not their values; those follow from the lemmas on each strategy.
- DescriptiveStatistics.CalculateDescriptiveStatistics: states when it
  fails, that its summary is `Summary`'s, and the key sets of the level and
  subject chunks. The values are stated by `SummaryMeaning`,
  `GroupStatsMeaning` and `SubjectsSummary`. The failure on an empty frame
  rests on polars giving the summary no row when the `mode` column is empty;
  the model raises `NoSummaryRow` there, as `.row(0)` does.
- ReportsInterface.LatestAttempts: states the kept rows as a multiset, not
  their order. The function itself is an order-preserving filter.
- `CalculateExamQuestionHeatStrip` (`reports_strategy.py`:287-310) is not
  modelled: its `average_score` is a float mean, and no report context shown
  uses it.
- Lists and dicts are values: the update in place of `blooms_data[level]` lists
  and of the nested report dict is modelled as rebuilding the value, so no
  aliasing between them is captured. Likewise `do_business_logic` returns
  `self.exam_data` itself, the dict later runs update in place; the model
  returns its value at the time of the call, so a caller holding the returned
  dict does not see later runs change it.
- The JSON encoder is not written out. `json.dumps`/`json.loads` are the
  parameter `JsonValue.Codec`, and `JsonValue.Lawful` is what the round-trip
  lemmas require of it. Floats in the fetched data are not part of
  `JsonValue.Json`. Nor are tuples: `get_course_data`
  (`queries/dashboard_queries.py` lines 179-198) stores the tuple rows of
  `cur.fetchall()` as they are, and `json.dumps` writes them as lists, so in
  Python a course call that misses the cache returns tuples and a later hit
  returns lists. The model's `fetched` is already a `Json` value, so
  `CourseSecondCallHits` states equal results where Python's differ in that
  way. `get_exam_data` turns every row into a list first (lines 62, 65 and
  68), so for the exam cache a miss and a later hit agree, as
  `ExamSecondCallHits` states.
- Database I/O (`get_exam_data`, `get_course_data(id)` in
  `queries/dashboard_queries.py`) is the `fetched` parameter. Queries and
  connections are not part of this model.
- The `print` calls and logging are left out.
- Redis key expiry and concurrent clients are left out: each strategy call
  runs against one database state, alone.
- `GetSystemDashboardCache` as written lacks `validate` and
  `get_cached_data`, which the abstract `Strategy` (`dashboard_interface.py`
  lines 39-49) declares abstract, so Python refuses to instantiate it with a
  `TypeError`. That refusal is not modelled. Were an instance built, its
  `do_algorithm` would call the inherited `validate`, whose body is `pass`,
  get `None`, take the `else: pass` branch and return `None` without raising.
  The model's `DoAlgorithm` does exactly that: the result is `None` and no
  Redis command runs.
- The dashboard `Context` (`dashboard_interface.py` lines 5-24) only forwards
  `id_context` to the strategy and calls `do_algorithm`. The model sets
  `idContext` on the strategy object directly.
- The asynchronous grading pipeline (`worker.py`) is a sketch with undefined
  collaborators and is not part of this model. The FastAPI routes and the
  scheduler are not part of it either.
