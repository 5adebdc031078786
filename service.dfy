/**
 * GradingService: routes each answer to a grader by question type and
 * aggregates a whole submission into total score, maximum score and percentage.
 */
module Service {
  import opened Wrappers
  import opened Numerics
  import opened Grading
  import opened Mcq
  import opened KeywordMatching
  import opened CosineSimilarity

  /** The three grading strategies a question type can be routed to. */
  datatype Grader = McqGrader | KeywordGrader | CosineGrader

  /** The `strategies` table built by `GradingService.__init__`. */
  function DefaultStrategies(): map<string, Grader> {
    map["mcq" := McqGrader, "true_false" := McqGrader, "short_answer" := KeywordGrader, "essay" := CosineGrader]
  }

  /** `self.strategies.get(question_type, KeywordMatchingGrader())` over the default table. */
  function Route(questionType: string): (g: Grader)
    ensures g == McqGrader <==> questionType == "mcq" || questionType == "true_false"
    ensures g == CosineGrader <==> questionType == "essay"
    ensures g == KeywordGrader <==> questionType !in {"mcq", "true_false", "essay"}
  {
    if questionType in DefaultStrategies() then DefaultStrategies()[questionType] else KeywordGrader
  }

  /** What the chosen grader promises about its result. */
  ghost predicate IsGrade(m: MathLib, g: Grader, student: string, expected: string, maxMarks: real, r: GradeResult) {
    match g
    case McqGrader => r == GradeMcq(student, expected, maxMarks)
    case KeywordGrader => IsKeywordGrade(m, student, expected, maxMarks, r)
    case CosineGrader => IsCosineGrade(m, student, expected, maxMarks, r)
  }

  /** One entry of `submission_data`; the rubric is never read by any grader. */
  datatype Item = Item(
    questionId: Option<int>,
    questionType: string,
    studentAnswer: string,
    expectedAnswer: string,
    maxMarks: real)

  /** One entry of `detailed_results`. */
  datatype ItemResult = ItemResult(
    questionId: Option<int>,
    score: real,
    maxMarks: real,
    feedback: string,
    details: Details)

  /** The dictionary `grade_submission` returns. */
  datatype SubmissionResult = SubmissionResult(
    totalScore: real,
    maxScore: real,
    percentage: real,
    detailedResults: seq<ItemResult>)

  /** An item's result is its grader's result, with the item's id and mark carried over. */
  ghost predicate ItemGraded(m: MathLib, item: Item, result: ItemResult) {
    && result.questionId == item.questionId
    && result.maxMarks == item.maxMarks
    && IsGrade(m, Route(item.questionType), item.studentAnswer, item.expectedAnswer, item.maxMarks,
               GradeResult(result.score, result.feedback, result.details))
  }

  /** `detailed_results` holds, in order, one graded entry per item of `submission_data`. */
  ghost predicate AllGraded(m: MathLib, items: seq<Item>, results: seq<ItemResult>) {
    && |results| == |items|
    && (items != [] ==>
          && AllGraded(m, items[..|items| - 1], results[..|results| - 1])
          && ItemGraded(m, items[|items| - 1], results[|results| - 1]))
  }

  function TotalScore(results: seq<ItemResult>): real {
    if results == [] then 0.0 else TotalScore(results[..|results| - 1]) + results[|results| - 1].score
  }

  function TotalMarks(items: seq<Item>): real {
    if items == [] then 0.0 else TotalMarks(items[..|items| - 1]) + items[|items| - 1].maxMarks
  }

  /** `(total_score / max_score * 100) if max_score > 0 else 0` */
  function Percentage(totalScore: real, maxScore: real): (p: real)
    ensures maxScore <= 0.0 ==> p == 0.0
    ensures 0.0 <= totalScore <= maxScore ==> 0.0 <= p <= 100.0
  {
    if maxScore > 0.0 then RatioWithinUnit(totalScore, maxScore); totalScore / maxScore * 100.0 else 0.0
  }

  /** A part of a positive whole is a fraction between 0 and 1 of it. */
  lemma RatioWithinUnit(a: real, b: real)
    requires b > 0.0
    ensures 0.0 <= a <= b ==> 0.0 <= a / b <= 1.0
  {
    if 0.0 <= a <= b {
      assert a / b * b == a;
    }
  }

  class GradingService {
    const strategies: map<string, Grader>

    predicate Valid() {
      strategies == DefaultStrategies()
    }

    /** `GradingService.__init__` */
    constructor ()
      ensures Valid()
      ensures strategies.Keys == {"mcq", "true_false", "short_answer", "essay"}
      ensures strategies["mcq"] == strategies["true_false"] == McqGrader
    {
      strategies := DefaultStrategies();
    }

    /** `grade_answer`: the strategy registered for the type, keyword matching for any other type. */
    method GradeAnswer(m: MathLib, questionType: string, student: string, expected: string, maxMarks: real)
      returns (r: GradeResult)
      requires Valid()
      ensures IsGrade(m, Route(questionType), student, expected, maxMarks, r)
    {
      var grader := if questionType in strategies then strategies[questionType] else KeywordGrader;
      match grader
      case McqGrader =>
        r := GradeMcq(student, expected, maxMarks);
      case KeywordGrader =>
        r := GradeKeyword(m, student, expected, maxMarks);
      case CosineGrader =>
        r := GradeCosine(m, student, expected, maxMarks);
    }

    /** The body of `grade_submission`'s loop: grade one item and build its result entry. */
    method GradeItem(m: MathLib, item: Item) returns (entry: ItemResult)
      requires Valid()
      ensures ItemGraded(m, item, entry)
    {
      var r := GradeAnswer(m, item.questionType, item.studentAnswer, item.expectedAnswer, item.maxMarks);
      entry := ItemResult(item.questionId, r.score, item.maxMarks, r.feedback, r.details);
    }

    /** `grade_submission` */
    method GradeSubmission(m: MathLib, submissionData: seq<Item>) returns (result: SubmissionResult)
      requires Valid()
      ensures AllGraded(m, submissionData, result.detailedResults)
      ensures result.totalScore == m.round(TotalScore(result.detailedResults), 2)
      ensures result.maxScore == m.round(TotalMarks(submissionData), 2)
      ensures result.percentage == m.round(Percentage(TotalScore(result.detailedResults), TotalMarks(submissionData)), 2)
    {
      var totalScore := 0.0;
      var maxScore := 0.0;
      var detailedResults: seq<ItemResult> := [];
      var i := 0;
      while i < |submissionData|
        invariant 0 <= i <= |submissionData|
        invariant AllGraded(m, submissionData[..i], detailedResults)
        invariant totalScore == TotalScore(detailedResults)
        invariant maxScore == TotalMarks(submissionData[..i])
      {
        var entry := GradeItem(m, submissionData[i]);
        totalScore := totalScore + entry.score;
        maxScore := maxScore + submissionData[i].maxMarks;
        AppendGraded(m, submissionData, i, detailedResults, entry);
        TotalScoreAppend(detailedResults, entry);
        TotalMarksPrefix(submissionData, i);
        detailedResults := detailedResults + [entry];
        i := i + 1;
      }
      assert submissionData[..i] == submissionData;
      var percentage := Percentage(totalScore, maxScore);
      result := SubmissionResult(m.round(totalScore, 2), m.round(maxScore, 2), m.round(percentage, 2), detailedResults);
    }
  }

  lemma AppendGraded(m: MathLib, items: seq<Item>, i: nat, results: seq<ItemResult>, entry: ItemResult)
    requires i < |items|
    requires AllGraded(m, items[..i], results)
    requires ItemGraded(m, items[i], entry)
    ensures AllGraded(m, items[..i + 1], results + [entry])
  {
    assert items[..i + 1][..i] == items[..i];
    assert (results + [entry])[..i] == results;
  }

  lemma TotalScoreAppend(results: seq<ItemResult>, entry: ItemResult)
    ensures TotalScore(results + [entry]) == TotalScore(results) + entry.score
  {
    assert (results + [entry])[..|results|] == results;
  }

  lemma TotalMarksPrefix(items: seq<Item>, i: nat)
    requires i < |items|
    ensures TotalMarks(items[..i + 1]) == TotalMarks(items[..i]) + items[i].maxMarks
  {
    assert items[..i + 1][..i] == items[..i];
  }

  // ---------------------------------------------------------------------------
  // Properties

  /** Every entry of a graded submission is its item's grade. */
  lemma {:induction false} GradedAt(m: MathLib, items: seq<Item>, results: seq<ItemResult>, i: nat)
    requires AllGraded(m, items, results)
    requires i < |items|
    ensures |results| == |items|
    ensures ItemGraded(m, items[i], results[i])
  {
    if i < |items| - 1 {
      GradedAt(m, items[..|items| - 1], results[..|results| - 1], i);
    }
  }

  /** With a lawful maths library and a non-negative mark, no grader gives a negative score. */
  lemma GradedScoreNonNegative(m: MathLib, g: Grader, student: string, expected: string, maxMarks: real, r: GradeResult)
    requires Lawful(m) && maxMarks >= 0.0
    requires IsGrade(m, g, student, expected, maxMarks, r)
    ensures r.score >= 0.0
  {
    match g
    case McqGrader =>
    case KeywordGrader =>
      KeywordScoreBounds(m, student, expected, maxMarks);
    case CosineGrader =>
      CosineScoreNonNegative(m, student, expected, maxMarks);
  }

  /** The objective question types never award more than the question's mark. */
  lemma McqScoreWithinMarks(m: MathLib, questionType: string, student: string, expected: string, maxMarks: real, r: GradeResult)
    requires questionType == "mcq" || questionType == "true_false"
    requires maxMarks >= 0.0
    requires IsGrade(m, Route(questionType), student, expected, maxMarks, r)
    ensures r.score == 0.0 || r.score == maxMarks
    ensures 0.0 <= r.score <= maxMarks
  {
  }

  /** Scores that each lie within their item's mark add up to at most the total mark. */
  lemma {:induction false} TotalWithinMarks(results: seq<ItemResult>, items: seq<Item>)
    requires |results| == |items|
    requires forall i :: 0 <= i < |items| ==> 0.0 <= results[i].score <= items[i].maxMarks
    ensures 0.0 <= TotalScore(results) <= TotalMarks(items)
  {
    if results != [] {
      TotalWithinMarks(results[..|results| - 1], items[..|items| - 1]);
    }
  }

  /**
   * When every item is scored within its mark, the submission's unrounded
   * percentage lies in [0, 100]; with a total mark of 0 it is 0.
   */
  lemma PercentageWithinRange(results: seq<ItemResult>, items: seq<Item>)
    requires |results| == |items|
    requires forall i :: 0 <= i < |items| ==> 0.0 <= results[i].score <= items[i].maxMarks
    ensures 0.0 <= Percentage(TotalScore(results), TotalMarks(items)) <= 100.0
  {
    TotalWithinMarks(results, items);
  }

  /** A submission of objective questions only, with non-negative marks, has a percentage in [0, 100] before rounding. */
  lemma ObjectiveSubmissionPercentage(m: MathLib, items: seq<Item>, result: SubmissionResult)
    requires forall i :: 0 <= i < |items| ==> items[i].questionType in {"mcq", "true_false"} && items[i].maxMarks >= 0.0
    requires AllGraded(m, items, result.detailedResults)
    ensures 0.0 <= Percentage(TotalScore(result.detailedResults), TotalMarks(items)) <= 100.0
  {
    forall i | 0 <= i < |items|
      ensures 0.0 <= result.detailedResults[i].score <= items[i].maxMarks
    {
      GradedAt(m, items, result.detailedResults, i);
      var ir := result.detailedResults[i];
      McqScoreWithinMarks(m, items[i].questionType, items[i].studentAnswer, items[i].expectedAnswer, items[i].maxMarks,
                          GradeResult(ir.score, ir.feedback, ir.details));
    }
    PercentageWithinRange(result.detailedResults, items);
  }
}
