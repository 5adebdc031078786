/**
 * MCQGrader: exact comparison of the stripped, lower-cased answers; full
 * marks or nothing. Also used for true/false questions.
 */
module Mcq {
  import opened Text
  import opened Grading

  const CorrectFeedback: string := "Correct!"
  const IncorrectPrefix: string := "Incorrect. Expected: "

  predicate AllSpace(s: string) {
    forall k :: 0 <= k < |s| ==> IsSpace(s[k])
  }

  predicate Unpadded(s: string) {
    s == [] || (!IsSpace(s[0]) && !IsSpace(s[|s| - 1]))
  }

  /** `answer.strip().lower()`: no surrounding whitespace and no capital letter is left. */
  function Normalize(s: string): (r: string)
    ensures Unpadded(r)
    ensures forall k :: 0 <= k < |r| ==> !IsUpper(r[k])
    ensures |r| <= |s|
  {
    LowerKeepsSpaces(Strip(s));
    StripShorter(s);
    Lower(Strip(s))
  }

  lemma StripShorter(s: string)
    ensures |Strip(s)| <= |s|
  {
    var a :| OccursAt(s, Strip(s), a);
  }

  lemma LowerConcat(a: string, b: string)
    ensures Lower(a + b) == Lower(a) + Lower(b)
  {
  }

  /** Whatever whitespace surrounds an unpadded text, `strip()` gives back exactly that text. */
  lemma StripExact(x: string, r: string, y: string)
    requires AllSpace(x) && AllSpace(y) && Unpadded(r)
    ensures Strip(x + r + y) == r
  {
    var s := x + r + y;
    if r == [] {
      assert s == x + y;
    } else {
      var a := LeadLen(s, IsSpace);
      assert s[|x|] == r[0];
      assert a == |x|;
      var t := s[a..];
      assert t == r + y;
      var b := TrailLen(t, IsSpace);
      assert t[|r| - 1] == r[|r| - 1];
      assert b == |y|;
      assert t[..|t| - b] == r;
    }
  }

  /** `strip()` removes only whitespace, from the two ends. */
  lemma StripParts(s: string) returns (x: string, y: string)
    ensures s == x + Strip(s) + y
    ensures AllSpace(x) && AllSpace(y)
  {
    var a := LeadLen(s, IsSpace);
    var t := s[a..];
    var b := TrailLen(t, IsSpace);
    x, y := s[..a], s[|s| - b..];
    assert s == x + s[a..|s| - b] + y;
    LeadIsSpace(s, a);
    TrailIsSpace(t, b);
    assert t[|t| - b..] == y;
  }

  lemma LeadIsSpace(s: string, a: nat)
    requires a <= |s| && forall k :: 0 <= k < a ==> IsSpace(s[k])
    ensures AllSpace(s[..a])
  {
  }

  lemma TrailIsSpace(t: string, b: nat)
    requires b <= |t| && forall k :: |t| - b <= k < |t| ==> IsSpace(t[k])
    ensures AllSpace(t[|t| - b..])
  {
    var y := t[|t| - b..];
    forall k | 0 <= k < |y|
      ensures IsSpace(y[k])
    {
      assert y[k] == t[|t| - b + k];
    }
  }

  lemma ConcatAssoc(a: string, b: string, c: string)
    ensures a + b + c == a + (b + c)
  {
  }

  lemma ConcatAllSpace(a: string, b: string)
    requires AllSpace(a) && AllSpace(b)
    ensures AllSpace(a + b)
  {
    forall k | 0 <= k < |a + b|
      ensures IsSpace((a + b)[k])
    {
      if k >= |a| {
        assert (a + b)[k] == b[k - |a|];
      }
    }
  }

  /** Stripping commutes with lower-casing. */
  lemma StripLower(s: string)
    ensures Strip(Lower(s)) == Lower(Strip(s))
  {
    var x, y := StripParts(s);
    var r := Strip(s);
    LowerConcat(x + r, y);
    LowerConcat(x, r);
    LowerKeepsSpaces(x);
    LowerKeepsSpaces(y);
    LowerKeepsSpaces(r);
    StripExact(Lower(x), Lower(r), Lower(y));
  }

  /** Normalising twice is normalising once. */
  lemma NormalizeIdempotent(s: string)
    ensures Normalize(Normalize(s)) == Normalize(s)
  {
    var r := Strip(s);
    LowerKeepsSpaces(r);
    StripUnpadded(Lower(r));
    LowerIdempotent(r);
  }

  /** Surrounding whitespace does not change the normalised answer. */
  lemma NormalizeIgnoresPadding(x: string, s: string, y: string)
    requires AllSpace(x) && AllSpace(y)
    ensures Normalize(x + s + y) == Normalize(s)
  {
    var u, v := StripParts(s);
    var r := Strip(s);
    calc {
      x + s + y;
      x + (u + r + v) + y;
      { ConcatAssoc(u, r, v); }
      x + (u + (r + v)) + y;
      { ConcatAssoc(x, u, r + v); }
      (x + u) + (r + v) + y;
      { ConcatAssoc(x + u, r + v, y); ConcatAssoc(r, v, y); ConcatAssoc(x + u, r, v + y); }
      (x + u) + r + (v + y);
    }
    assert AllSpace(x + u) && AllSpace(v + y) by {
      ConcatAllSpace(x, u);
      ConcatAllSpace(v, y);
    }
    StripExact(x + u, r, v + y);
  }

  /** Letter case does not change the normalised answer. */
  lemma NormalizeIgnoresCase(s: string)
    ensures Normalize(Lower(s)) == Normalize(s)
  {
    StripLower(s);
    LowerIdempotent(Strip(s));
  }

  /** `MCQGrader.grade` (the rubric argument is never read). */
  function GradeMcq(student: string, expected: string, maxMarks: real): (r: GradeResult)
    ensures r.details.McqDetails?
    ensures r.details.isCorrect <==> Normalize(student) == Normalize(expected)
    ensures r.score == if r.details.isCorrect then maxMarks else 0.0
    ensures r.feedback == CorrectFeedback <==> r.details.isCorrect
    ensures !r.details.isCorrect ==> r.feedback == IncorrectPrefix + Normalize(expected)
    ensures r.details.studentAnswer == Normalize(student) && r.details.expectedAnswer == Normalize(expected)
  {
    var s := Normalize(student);
    var e := Normalize(expected);
    var isCorrect := s == e;
    var score := if isCorrect then maxMarks else 0.0;
    var feedback := if isCorrect then CorrectFeedback else IncorrectPrefix + e;
    assert isCorrect || |feedback| > |CorrectFeedback|;
    GradeResult(score, feedback, McqDetails(isCorrect, s, e))
  }

  /** The expected answer itself, however padded or capitalised, earns full marks. */
  lemma ExpectedAnswerEarnsFullMarks(x: string, v: string, expected: string, y: string, maxMarks: real)
    requires AllSpace(x) && AllSpace(y) && Lower(v) == Lower(expected)
    ensures GradeMcq(x + v + y, expected, maxMarks).score == maxMarks
  {
    NormalizeIgnoresPadding(x, v, y);
    StripLower(v);
    StripLower(expected);
  }

  /** Grading depends on the student answer only through its normalised form. */
  lemma GradeMcqInvariant(s1: string, s2: string, expected: string, maxMarks: real)
    requires Normalize(s1) == Normalize(s2)
    ensures GradeMcq(s1, expected, maxMarks) == GradeMcq(s2, expected, maxMarks)
  {
  }
}
