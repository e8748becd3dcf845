/**
 * The exam-attempt data frame the reports are computed from: one row per
 * (student, attempt, question), with integer points. Named column accessors
 * are used as the keys and values of group-bys.
 */
module ExamFrame {
  import opened Wrappers

  datatype Row = Row(
    userId: int,
    attempt: int,
    questionId: int,
    questionLevel: string,
    questionType: string,
    subjectId: int,
    subjectName: string,
    topicId: int,
    topicName: string,
    courseAbbreviation: string,
    pointsObtained: int,
    questionPoints: int)

  function UserId(r: Row): int { r.userId }
  function Attempt(r: Row): int { r.attempt }
  function QuestionId(r: Row): int { r.questionId }
  function QuestionLevel(r: Row): string { r.questionLevel }
  function QuestionType(r: Row): string { r.questionType }
  function SubjectId(r: Row): int { r.subjectId }
  function TopicId(r: Row): int { r.topicId }
  function CourseAbbreviation(r: Row): string { r.courseAbbreviation }
  function PointsObtained(r: Row): int { r.pointsObtained }
  function QuestionPoints(r: Row): int { r.questionPoints }

  /**
   * A quotient as the reports compute it in floating point, kept exact and
   * unevaluated: `Div(n, d)` stands for n / d (with d == 0 standing for the
   * infinity or NaN that an unguarded float division yields), and `Zero` for
   * the literal 0.0 that a guarded division falls back to.
   */
  datatype Fraction = Zero | Div(num: int, den: int)

  /** `a / b * 100`, with no guard: the denominator may be 0. */
  function Percentage(a: int, b: int): Fraction
  {
    Div(100 * a, b)
  }

  /**
   * `when(den > 0).then(num / den * 100).otherwise(0.0)`: the unguarded
   * percentage wherever the denominator is positive, and 0 elsewhere.
   */
  function GuardedPercentage(num: int, den: int): (f: Fraction)
    ensures den <= 0 ==> f == Zero
    ensures den > 0 ==> f == Percentage(num, den)
    ensures f.Div? ==> f.den > 0 && f.den == den && f.num == 100 * num
  {
    if den > 0 then Div(100 * num, den) else Zero
  }

  /** The errors a report strategy raises. */
  datatype ReportError =
    | LevelNotInOrder(level: string) // `LEVEL_ORDER.index` on a level outside the Bloom taxonomy
    | NoSummaryRow                   // `.row(0)` on the summary of a frame with no students

}
