/**
 * `SubmissionCreateSerializer`: the checks an answer set must pass before a
 * submission is created. The `Question` table is passed in as a map from
 * question id to the id of the exam it belongs to.
 */
module Serializers {
  import opened Wrappers
  import opened Text

  /** One entry of `answers` (`AnswerSubmitSerializer`); the text may be blank. */
  datatype AnswerSubmit = AnswerSubmit(questionId: int, answerText: string)

  const NoAnswersError: string := "At least one answer is required"
  const DuplicateError: string := "Duplicate question IDs found"
  const ForeignQuestionError: string := "Some questions do not belong to this exam"

  function QuestionIds(answers: seq<AnswerSubmit>): (ids: seq<int>)
    ensures |ids| == |answers|
    ensures forall i :: 0 <= i < |answers| ==> ids[i] == answers[i].questionId
  {
    seq(|answers|, i requires 0 <= i < |answers| => answers[i].questionId)
  }

  /** `validate_answers`: a non-empty list with no question answered twice, returned unchanged. */
  function ValidateAnswers(answers: seq<AnswerSubmit>): (r: Result<seq<AnswerSubmit>>)
    ensures r.Success? <==> answers != [] && NoDup(QuestionIds(answers))
    ensures r.Success? ==> r.value == answers
    ensures answers == [] ==> r == Failure(NoAnswersError)
    ensures answers != [] && !NoDup(QuestionIds(answers)) ==> r == Failure(DuplicateError)
  {
    var ids := QuestionIds(answers);
    NoDupIffSetSize(ids);
    if |answers| == 0 then Failure(NoAnswersError)
    else if |ids| != |SetOf(ids)| then Failure(DuplicateError)
    else Success(answers)
  }

  /** The question rows `Question.objects.filter(exam_id=..., id__in=...)` finds. */
  function ExamQuestions(examId: int, ids: seq<int>, questionExam: map<int, int>): (found: set<int>)
    ensures found <= SetOf(ids)
    ensures forall id :: id in found <==> id in ids && id in questionExam && questionExam[id] == examId
  {
    set id | id in SetOf(ids) && id in questionExam && questionExam[id] == examId
  }

  predicate BelongsTo(examId: int, ids: seq<int>, questionExam: map<int, int>) {
    forall id :: id in ids ==> id in questionExam && questionExam[id] == examId
  }

  /** `validate`: the number of matching question rows must equal the number of answers. */
  function Validate(examId: int, answers: seq<AnswerSubmit>, questionExam: map<int, int>): (r: Result<seq<AnswerSubmit>>)
    ensures r.Success? <==> NoDup(QuestionIds(answers)) && BelongsTo(examId, QuestionIds(answers), questionExam)
    ensures r.Success? ==> r.value == answers
    ensures r.Failure? ==> r.error == ForeignQuestionError
  {
    var ids := QuestionIds(answers);
    CountMatchesIff(examId, ids, questionExam);
    if |ExamQuestions(examId, ids, questionExam)| != |ids| then Failure(ForeignQuestionError)
    else Success(answers)
  }

  /** A subset as large as its superset is the whole superset. */
  lemma SubsetOfSameSize<T>(a: set<T>, b: set<T>)
    requires a <= b && |a| == |b|
    ensures a == b
  {
    assert |b - a| == |b| - |a|;
  }

  /** The row count matches the id count exactly when the ids are distinct and all belong to the exam. */
  lemma CountMatchesIff(examId: int, ids: seq<int>, questionExam: map<int, int>)
    ensures |ExamQuestions(examId, ids, questionExam)| == |ids|
            <==> NoDup(ids) && BelongsTo(examId, ids, questionExam)
  {
    var found := ExamQuestions(examId, ids, questionExam);
    var all := SetOf(ids);
    NoDupIffSetSize(ids);
    SetOfSize(ids);
    assert |found| <= |all| by { SubsetSize(found, all); }
    if |found| == |ids| {
      SubsetOfSameSize(found, all);
      forall id | id in ids
        ensures id in questionExam && questionExam[id] == examId
      {
        assert id in all;
      }
    }
    if NoDup(ids) && BelongsTo(examId, ids, questionExam) {
      forall id | id in all
        ensures id in found
      {
        assert id in ids;
      }
      assert found == all;
    }
  }

  /**
   * Field validation then object validation: an answer set is accepted
   * exactly when it is non-empty, has no repeated question and every
   * question belongs to the exam; duplicates are reported before foreign
   * questions.
   */
  function ValidateSubmission(examId: int, answers: seq<AnswerSubmit>, questionExam: map<int, int>): (r: Result<seq<AnswerSubmit>>)
    ensures r.Success? <==>
      answers != [] && NoDup(QuestionIds(answers)) && BelongsTo(examId, QuestionIds(answers), questionExam)
    ensures r.Success? ==> r.value == answers
    ensures answers != [] && !NoDup(QuestionIds(answers)) ==> r == Failure(DuplicateError)
  {
    match ValidateAnswers(answers)
    case Failure(e) => Failure(e)
    case Success(checked) => Validate(examId, checked, questionExam)
  }
}
