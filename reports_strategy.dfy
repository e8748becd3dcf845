/**
 * The report strategies and the chunk each one contributes to the exam
 * report: a map from fixed chunk names to values. Two strategies can fail:
 * the overview (on a question level outside the Bloom taxonomy) and the
 * descriptive statistics (on a frame without rows).
 */
module ReportsStrategy {
  import opened Wrappers
  import opened ExamFrame
  import opened ExamHistogram
  import opened DescriptiveStatistics
  import opened ExamOverview
  import opened SubjectsAndTopics
  import opened TypesWithLevels

  /** The strategies whose `calculate` the report context runs. */
  datatype Strategy =
    | ExamDescriptiveStatistics
    | ExamOverviewStrategy
    | ExamHistogramBoxplot
    | ExamBySubjectsAndTopics
    | ExamByTypeWithLevels

  /** A value of a report chunk. */
  datatype ReportValue =
    | ExamSummaryValue(summary: ExamSummary)
    | LevelStatsValue(levels: map<string, GroupStats>)
    | SubjectStatsValue(subjects: map<int, SubjectStats>)
    | OverviewValue(overview: OverviewData)
    | HistogramValue(histogram: map<int, UserScore>)
    | ScoresValue(scores: Report)
    | TypesValue(types: seq<QTypeEntry>)

  /** The names of the report chunks. */
  datatype ChunkName =
    | ExamSummaryData
    | QuestionLevelsSummaryData
    | SubjectsMinMaxData
    | ExamOverviewData
    | ExamHistogramBoxplotData
    | NormalizedExamScoresBySubjects
    | NormalizedExamScoresByTopics
    | ExamByTypesWithLevels

  /** The key a chunk is stored under in the report. */
  function KeyOf(n: ChunkName): string
  {
    match n
    case ExamSummaryData => "exam_summary_data"
    case QuestionLevelsSummaryData => "question_levels_summary_data"
    case SubjectsMinMaxData => "subjects_min_max_data"
    case ExamOverviewData => "exam_overview_data"
    case ExamHistogramBoxplotData => "exam_histogram_boxplot_data"
    case NormalizedExamScoresBySubjects => "normalized_exam_scores_by_subjects"
    case NormalizedExamScoresByTopics => "normalized_exam_scores_by_topics"
    case ExamByTypesWithLevels => "exam_by_types_with_levels"
  }

  type Chunk = map<ChunkName, ReportValue>

  /** The names under which each strategy reports. */
  function ChunkNames(s: Strategy): set<ChunkName>
  {
    match s
    case ExamDescriptiveStatistics => {ExamSummaryData, QuestionLevelsSummaryData, SubjectsMinMaxData}
    case ExamOverviewStrategy => {ExamOverviewData}
    case ExamHistogramBoxplot => {ExamHistogramBoxplotData}
    case ExamBySubjectsAndTopics => {NormalizedExamScoresBySubjects, NormalizedExamScoresByTopics}
    case ExamByTypeWithLevels => {ExamByTypesWithLevels}
  }

  /** What `calculate` returns for strategy `s` on the frame `df`. */
  function ChunkOf(s: Strategy, df: seq<Row>): (r: Result<Chunk, ReportError>)
    ensures r.Success? ==> r.value.Keys == ChunkNames(s)
    ensures r.Failure? ==> s == ExamOverviewStrategy || s == ExamDescriptiveStatistics
  {
    match s
    case ExamDescriptiveStatistics =>
      (match CalculateDescriptiveStatistics(df)
       case Failure(e) => Failure(e)
       case Success(d) =>
         Success(map[
           ExamSummaryData := ExamSummaryValue(d.examSummaryData),
           QuestionLevelsSummaryData := LevelStatsValue(d.questionLevelsSummaryData),
           SubjectsMinMaxData := SubjectStatsValue(d.subjectsMinMaxData)]))
    case ExamOverviewStrategy =>
      (match CalculateOverview(df)
       case Failure(e) => Failure(e)
       case Success(o) => Success(map[ExamOverviewData := OverviewValue(o)]))
    case ExamHistogramBoxplot =>
      Success(map[ExamHistogramBoxplotData := HistogramValue(HistogramBoxplot(df))])
    case ExamBySubjectsAndTopics =>
      var d := SubjectsTopicsOf(df);
      Success(map[
        NormalizedExamScoresBySubjects := ScoresValue(d.normalizedExamScoresBySubjects),
        NormalizedExamScoresByTopics := ScoresValue(d.normalizedExamScoresByTopics)])
    case ExamByTypeWithLevels =>
      Success(map[ExamByTypesWithLevels := TypesValue(TypesWithLevelsOf(df))])
  }

  /**
   * Every strategy reports under its own names. Two fail: the overview exactly
   * when the overview itself does, and the descriptive statistics exactly on
   * an empty frame.
   */
  lemma ChunkKeys(s: Strategy, df: seq<Row>)
    ensures ChunkOf(s, df).Success? ==> ChunkOf(s, df).value.Keys == ChunkNames(s)
    ensures ChunkOf(s, df).Failure? <==>
      || (s == ExamOverviewStrategy && CalculateOverview(df).Failure?)
      || (s == ExamDescriptiveStatistics && |df| == 0)
    ensures ChunkOf(s, df).Failure? && s == ExamDescriptiveStatistics ==> ChunkOf(s, df).error == NoSummaryRow
  {
  }

  /** `strategy.calculate(df)`, running the restructuring loops where the strategy has them. */
  method Calculate(s: Strategy, df: seq<Row>) returns (r: Result<Chunk, ReportError>)
    ensures r == ChunkOf(s, df)
  {
    match s {
      case ExamBySubjectsAndTopics =>
        var d := CalculateBySubjectsAndTopics(df);
        r := Success(map[
          NormalizedExamScoresBySubjects := ScoresValue(d.normalizedExamScoresBySubjects),
          NormalizedExamScoresByTopics := ScoresValue(d.normalizedExamScoresByTopics)]);
      case ExamByTypeWithLevels =>
        var t := CalculateByTypeWithLevels(df);
        r := Success(map[ExamByTypesWithLevels := TypesValue(t)]);
      case _ =>
        r := ChunkOf(s, df);
    }
  }
}
