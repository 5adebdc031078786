/**
 * The two model classes whose methods carry logic: `Exam` (its availability
 * window) and `Submission` (percentage and pass mark). Timestamps are
 * integers on one clock; the current time is a parameter.
 */
module Models {
  import opened Wrappers

  /** The `Exam` fields that `is_active`, `calculate_percentage` and `is_passed` read. */
  datatype Exam = Exam(
    status: string,
    startTime: Option<int>,
    endTime: Option<int>,
    passingScore: real,
    totalMarks: nat)

  const Published: string := "published"

  /** Whether `now` lies inside the exam's window, an absent bound leaving that side open. */
  predicate InWindow(exam: Exam, now: int) {
    && (exam.startTime.Some? ==> exam.startTime.value <= now)
    && (exam.endTime.Some? ==> now <= exam.endTime.value)
  }

  /** `Exam.is_active`, with `timezone.now()` passed in as `now`. */
  function IsActive(exam: Exam, now: int): (active: bool)
    ensures active <==> exam.status == Published && InWindow(exam, now)
  {
    if exam.status != Published then false
    else if exam.startTime.Some? && now < exam.startTime.value then false
    else if exam.endTime.Some? && now > exam.endTime.value then false
    else true
  }

  /** An exam that is active at two moments is active at every moment between them. */
  lemma ActiveBetween(exam: Exam, t1: int, t2: int, t3: int)
    requires t1 <= t2 <= t3
    requires IsActive(exam, t1) && IsActive(exam, t3)
    ensures IsActive(exam, t2)
  {
  }

  /** A published exam without bounds is always active; an unpublished one never is. */
  lemma ActiveWithoutBounds(exam: Exam, now: int)
    requires exam.startTime.None? && exam.endTime.None?
    ensures IsActive(exam, now) <==> exam.status == Published
  {
  }

  /** An exam is never active after its end, nor before its start. */
  lemma InactiveOutsideWindow(exam: Exam, now: int)
    requires (exam.startTime.Some? && now < exam.startTime.value) || (exam.endTime.Some? && now > exam.endTime.value)
    ensures !IsActive(exam, now)
  {
  }

  /**
   * What `is_passed` decides once the percentage has been computed from
   * `score`: the percentage reaches the pass mark exactly when
   * `score * 100` reaches `passing_score * total_marks`.
   */
  function ReachesPassMark(exam: Exam, score: real): (passed: bool)
    requires exam.totalMarks > 0
    ensures passed <==> score * 100.0 >= exam.passingScore * exam.totalMarks as real
  {
    var total := exam.totalMarks as real;
    assert score / total * 100.0 * total == score * 100.0;
    score / total * 100.0 >= exam.passingScore
  }

  /** A higher score never turns a pass into a fail. */
  lemma PassMonotone(exam: Exam, s1: real, s2: real)
    requires exam.totalMarks > 0 && s1 <= s2
    requires ReachesPassMark(exam, s1)
    ensures ReachesPassMark(exam, s2)
  {
  }

  /** A `Submission`, reduced to the fields `calculate_percentage` and `is_passed` use. */
  class Submission {
    const exam: Exam
    var score: Option<real>
    var percentage: Option<real>

    constructor (exam: Exam, score: Option<real>)
      ensures this.exam == exam && this.score == score && this.percentage == None
    {
      this.exam := exam;
      this.score := score;
      this.percentage := None;
    }

    /** `Submission.is_passed`: false while no percentage has been computed. */
    predicate IsPassed()
      reads this
      ensures IsPassed() ==> percentage.Some?
    {
      if percentage.Some? then percentage.value >= exam.passingScore else false
    }

    /**
     * `Submission.calculate_percentage`: with a score and a positive total
     * mark, the percentage becomes `score / total_marks * 100`; otherwise
     * nothing changes. Afterwards the pass decision is the cross-multiplied
     * comparison of `ReachesPassMark`.
     */
    method CalculatePercentage()
      modifies this
      ensures score == old(score)
      ensures old(score).Some? && exam.totalMarks > 0 ==>
        percentage == Some(old(score).value / exam.totalMarks as real * 100.0)
      ensures old(score).None? || exam.totalMarks == 0 ==> percentage == old(percentage)
      ensures old(score).Some? && exam.totalMarks > 0 ==>
        (IsPassed() <==> ReachesPassMark(exam, old(score).value))
    {
      if score.Some? && exam.totalMarks > 0 {
        percentage := Some(score.value / exam.totalMarks as real * 100.0);
      }
    }
  }
}
