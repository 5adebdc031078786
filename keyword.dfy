/**
 * KeywordMatchingGrader: the share of the expected answer's keywords that
 * occur in the student answer, scaled down for answers under ten words.
 */
module KeywordMatching {
  import opened Text
  import opened Numerics
  import opened Grading

  const StopWords: set<string> := {
    "the", "a", "an", "and", "or", "but", "in", "on", "at", "to", "for",
    "of", "with", "is", "are", "was", "were", "be", "been", "being",
    "have", "has", "had", "do", "does", "did", "will", "would", "could",
    "should", "may", "might", "must", "can", "this", "that", "these", "those"
  }

  predicate IsStopWord(w: string) {
    w in StopWords
  }

  /** Answers with fewer words than this get a proportional length factor. */
  const MinWords: nat := 10

  const DetailHint: string := "Answer could be more detailed"
  const ReviewedOnly: string := "Answer reviewed."

  function Min(x: real, y: real): real {
    if x <= y then x else y
  }

  // ---------------------------------------------------------------------------
  // Keyword extraction

  /** Keeps the words of three letters or more that are not stop words, in order. */
  function LongNonStop(ws: seq<string>): seq<string> {
    if ws == [] then []
    else (if |ws[0]| >= 3 && !IsStopWord(ws[0]) then [ws[0]] else []) + LongNonStop(ws[1..])
  }

  lemma {:induction false} LongNonStopMember(ws: seq<string>, w: string)
    ensures w in LongNonStop(ws) <==> w in ws && |w| >= 3 && !IsStopWord(w)
  {
    if ws != [] {
      LongNonStopMember(ws[1..], w);
    }
  }

  /** The list comprehension of `_extract_keywords`, duplicates and text order kept. */
  function Candidates(text: string): seq<string> {
    LongNonStop(Tokens(Lower(text)))
  }

  /** `set(keywords)`: the keywords of an expected answer, order forgotten. */
  function KeywordSet(text: string): set<string> {
    SetOf(Candidates(text))
  }

  /**
   * The keywords of a text are exactly its qualifying words: maximal `\w` runs
   * of the lower-cased text made of ASCII letters, at least three long, not stop words.
   */
  lemma KeywordSetCharacterized(text: string, w: string)
    ensures w in KeywordSet(text) <==>
      && |w| >= 3
      && !IsStopWord(w)
      && AllLetters(w)
      && exists i, j :: IsRun(Lower(text), IsWordChar, i, j) && Lower(text)[i..j] == w
  {
    LongNonStopMember(Tokens(Lower(text)), w);
    TokensCharacterized(Lower(text), w);
  }

  /** Every keyword is a lower-case ASCII word of at least three letters and no stop word. */
  lemma KeywordShape(text: string, w: string)
    requires w in KeywordSet(text)
    ensures |w| >= 3 && !IsStopWord(w) && IsLowerWord(w) && Lower(w) == w
  {
    LongNonStopMember(Tokens(Lower(text)), w);
    TokensOfLowerAreLowerWords(text, w);
    LowerOfLowerWord(w);
  }

  /** `_extract_keywords`: `list(set(keywords))`, whose order Python leaves unspecified. */
  method ExtractKeywords(text: string) returns (keywords: seq<string>)
    ensures NoDup(keywords)
    ensures SetOf(keywords) == KeywordSet(text)
    ensures |keywords| == |KeywordSet(text)|
  {
    var remaining := set w | w in Candidates(text);
    ghost var all := remaining;
    keywords := [];
    while remaining != {}
      invariant NoDup(keywords)
      invariant SetOf(keywords) !! remaining
      invariant SetOf(keywords) + remaining == all
      decreases |remaining|
    {
      var w :| w in remaining;
      keywords := keywords + [w];
      remaining := remaining - {w};
    }
    NoDupIffSetSize(keywords);
  }

  // ---------------------------------------------------------------------------
  // Matching

  /** The keywords, in list order, whose lower-cased form occurs in `hay`. */
  function Matching(ks: seq<string>, hay: string): seq<string> {
    if ks == [] then []
    else
      var w := ks[|ks| - 1];
      Matching(ks[..|ks| - 1], hay) + (if Contains(hay, Lower(w)) then [w] else [])
  }

  /** The keywords, in list order, whose lower-cased form does not occur in `hay`. */
  function Missing(ks: seq<string>, hay: string): seq<string> {
    if ks == [] then []
    else
      var w := ks[|ks| - 1];
      Missing(ks[..|ks| - 1], hay) + (if Contains(hay, Lower(w)) then [] else [w])
  }

  lemma {:induction false} MatchingMember(ks: seq<string>, hay: string, w: string)
    ensures w in Matching(ks, hay) <==> w in ks && Contains(hay, Lower(w))
  {
    if ks != [] {
      var init := ks[..|ks| - 1];
      MatchingMember(init, hay, w);
      assert ks == init + [ks[|ks| - 1]];
    }
  }

  lemma {:induction false} MissingMember(ks: seq<string>, hay: string, w: string)
    ensures w in Missing(ks, hay) <==> w in ks && !Contains(hay, Lower(w))
  {
    if ks != [] {
      var init := ks[..|ks| - 1];
      MissingMember(init, hay, w);
      assert ks == init + [ks[|ks| - 1]];
    }
  }

  /** Matched and missed split the keyword list: every occurrence lands in exactly one of them. */
  lemma {:induction false} MatchingPartition(ks: seq<string>, hay: string)
    ensures multiset(Matching(ks, hay)) + multiset(Missing(ks, hay)) == multiset(ks)
  {
    if ks != [] {
      var init, last := ks[..|ks| - 1], ks[|ks| - 1];
      calc {
        multiset(Matching(ks, hay)) + multiset(Missing(ks, hay));
        { PartitionStep(ks, hay); }
        multiset(Matching(init, hay)) + multiset(Missing(init, hay)) + multiset{last};
        { MatchingPartition(init, hay); }
        multiset(init) + multiset{last};
        { assert ks == init + [last]; }
        multiset(ks);
      }
    }
  }

  /** The last keyword lands in exactly one of the two lists. */
  lemma PartitionStep(ks: seq<string>, hay: string)
    requires ks != []
    ensures multiset(Matching(ks, hay)) + multiset(Missing(ks, hay))
         == multiset(Matching(ks[..|ks| - 1], hay)) + multiset(Missing(ks[..|ks| - 1], hay)) + multiset{ks[|ks| - 1]}
  {
  }

  lemma {:induction false} MatchingNoDup(ks: seq<string>, hay: string)
    requires NoDup(ks)
    ensures NoDup(Matching(ks, hay))
  {
    if ks != [] {
      var init, last := ks[..|ks| - 1], ks[|ks| - 1];
      MatchingNoDup(init, hay);
      MatchingMember(init, hay, last);
      assert ks == init + [last];
    }
  }

  lemma {:induction false} MissingNoDup(ks: seq<string>, hay: string)
    requires NoDup(ks)
    ensures NoDup(Missing(ks, hay))
  {
    if ks != [] {
      var init, last := ks[..|ks| - 1], ks[|ks| - 1];
      MissingNoDup(init, hay);
      MissingMember(init, hay, last);
      assert ks == init + [last];
    }
  }

  /** The keywords of `expected` that occur in the lower-cased student answer. */
  function MatchedSet(student: string, expected: string): (m: set<string>)
    ensures m <= KeywordSet(expected)
  {
    set w | w in KeywordSet(expected) && Contains(Lower(student), Lower(w))
  }

  /** A keyword is matched exactly when it is a substring of the lower-cased answer, not necessarily a whole word. */
  lemma MatchedIffSubstring(student: string, expected: string, w: string)
    requires w in KeywordSet(expected)
    ensures w in MatchedSet(student, expected) <==> Contains(Lower(student), w)
  {
    KeywordShape(expected, w);
  }

  /**
   * Splitting any duplicate-free listing of the keywords yields the matched set
   * and its complement, each without duplicates.
   */
  lemma SplitMeetsSpec(keywords: seq<string>, student: string, expected: string)
    requires NoDup(keywords) && SetOf(keywords) == KeywordSet(expected)
    ensures NoDup(Matching(keywords, Lower(student)))
    ensures NoDup(Missing(keywords, Lower(student)))
    ensures SetOf(Matching(keywords, Lower(student))) == MatchedSet(student, expected)
    ensures SetOf(Missing(keywords, Lower(student))) == KeywordSet(expected) - MatchedSet(student, expected)
    ensures |Matching(keywords, Lower(student))| == |MatchedSet(student, expected)|
    ensures forall w :: w in Matching(keywords, Lower(student)) + Missing(keywords, Lower(student)) ==> IsLowerWord(w)
  {
    var hay := Lower(student);
    var matched, missed := Matching(keywords, hay), Missing(keywords, hay);
    MatchingNoDup(keywords, hay);
    MissingNoDup(keywords, hay);
    forall w
      ensures w in SetOf(matched) <==> w in MatchedSet(student, expected)
      ensures w in SetOf(missed) <==> w in KeywordSet(expected) - MatchedSet(student, expected)
    {
      MatchingMember(keywords, hay, w);
      MissingMember(keywords, hay, w);
    }
    NoDupIffSetSize(matched);
    forall w | w in matched + missed
      ensures IsLowerWord(w)
    {
      MatchingMember(keywords, hay, w);
      MissingMember(keywords, hay, w);
      KeywordShape(expected, w);
    }
  }

  // ---------------------------------------------------------------------------
  // Score

  /** `match_percentage` before scaling to per cent. */
  function MatchRatio(student: string, expected: string): real {
    var k := |KeywordSet(expected)|;
    if k > 0 then |MatchedSet(student, expected)| as real / k as real else 0.5
  }

  /** `match_percentage * 100` */
  function PerCent(ratio: real): real {
    ratio * 100.0
  }

  function LengthFactor(wordCount: nat): real {
    if wordCount < MinWords then Min(1.0, wordCount as real / MinWords as real) else 1.0
  }

  /** The score the keyword grader gives, as a function of its inputs alone. */
  function KeywordScore(m: MathLib, student: string, expected: string, maxMarks: real): real {
    m.round(Scaled(maxMarks, MatchRatio(student, expected), LengthFactor(WordCount(student))), 2)
  }

  /** `max_marks * match_percentage * length_factor` */
  function Scaled(maxMarks: real, ratio: real, factor: real): real {
    maxMarks * ratio * factor
  }

  lemma MatchRatioBounds(student: string, expected: string)
    ensures 0.0 <= MatchRatio(student, expected) <= 1.0
    ensures |KeywordSet(expected)| == 0 ==> MatchRatio(student, expected) == 0.5
  {
    SubsetSize(MatchedSet(student, expected), KeywordSet(expected));
  }

  lemma LengthFactorBounds(wordCount: nat)
    ensures 0.0 <= LengthFactor(wordCount) <= 1.0
    ensures wordCount < MinWords ==> LengthFactor(wordCount) == wordCount as real / 10.0
    ensures wordCount == 0 ==> LengthFactor(wordCount) == 0.0
  {
  }

  lemma ScaledByUnitFactors(maxMarks: real, a: real, b: real)
    requires maxMarks >= 0.0 && 0.0 <= a <= 1.0 && 0.0 <= b <= 1.0
    ensures 0.0 <= Scaled(maxMarks, a, b) <= maxMarks
  {
    NonNegativeScale(a, b);
    NonNegativeScale(1.0 - a, b);
    assert (1.0 - a) * b == b - a * b;
    var ab := a * b;
    assert 0.0 <= ab <= 1.0;
    NonNegativeScale(maxMarks, ab);
    NonNegativeScale(maxMarks, 1.0 - ab);
    assert maxMarks * (1.0 - ab) == maxMarks - maxMarks * ab;
    assert maxMarks * a * b == maxMarks * ab;
  }

  /** For a non-negative mark the keyword score lies between 0 and the rounded mark. */
  lemma KeywordScoreBounds(m: MathLib, student: string, expected: string, maxMarks: real)
    requires Lawful(m) && maxMarks >= 0.0
    ensures 0.0 <= KeywordScore(m, student, expected, maxMarks) <= m.round(maxMarks, 2)
  {
    var ratio := MatchRatio(student, expected);
    var factor := LengthFactor(WordCount(student));
    MatchRatioBounds(student, expected);
    LengthFactorBounds(WordCount(student));
    ScaledByUnitFactors(maxMarks, ratio, factor);
    var raw := Scaled(maxMarks, ratio, factor);
    RoundZero(m, 2);
    RoundMonotone(m, 0.0, raw, 2);
    RoundMonotone(m, raw, maxMarks, 2);
  }

  /** An empty or whitespace-only student answer scores 0. */
  lemma BlankAnswerScoresZero(m: MathLib, student: string, expected: string, maxMarks: real)
    requires Lawful(m)
    requires forall k :: 0 <= k < |student| ==> IsSpace(student[k])
    ensures KeywordScore(m, student, expected, maxMarks) == 0.0
  {
    WordCountZero(student);
    LengthFactorBounds(WordCount(student));
    assert Scaled(maxMarks, MatchRatio(student, expected), 0.0) == 0.0;
  }

  /**
   * Covering more of the expected keywords never lowers the match ratio: if
   * every keyword found in `s1` is also found in `s2`, `s2` matches at least as much.
   */
  lemma MatchRatioMonotone(s1: string, s2: string, expected: string)
    requires forall w :: w in KeywordSet(expected) && Contains(Lower(s1), w) ==> Contains(Lower(s2), w)
    ensures MatchRatio(s1, expected) <= MatchRatio(s2, expected)
  {
    var m1, m2 := MatchedSet(s1, expected), MatchedSet(s2, expected);
    forall w | w in m1
      ensures w in m2
    {
      MatchedIffSubstring(s1, expected, w);
      MatchedIffSubstring(s2, expected, w);
    }
    SubsetSize(m1, m2);
    var k := |KeywordSet(expected)|;
    if k > 0 {
      DivideMonotone(|m1|, |m2|, k);
    }
  }

  lemma DivideMonotone(a: nat, b: nat, k: nat)
    requires a <= b && k > 0
    ensures a as real / k as real <= b as real / k as real
  {
  }

  // ---------------------------------------------------------------------------
  // Feedback

  const CoveragePrefix: string := "Good coverage of key concepts: "
  const IncludePrefix: string := "Consider including: "

  /** `words[:limit]` */
  function Take(words: seq<string>, limit: nat): seq<string> {
    words[..if |words| < limit then |words| else limit]
  }

  /** The coverage line: at most the first five matched keywords. */
  function CoverageLine(matched: seq<string>): string {
    CoveragePrefix + Join(Take(matched, 5), ", ")
  }

  /** The suggestion line: at most the first three missed keywords. */
  function IncludeLine(missed: seq<string>): string {
    IncludePrefix + Join(Take(missed, 3), ", ")
  }

  /**
   * `line` is the whole feedback or its first part, so the listing it holds
   * ends where the text ends or at the part separator ". ".
   */
  predicate ListingOpens(feedback: string, line: string) {
    feedback == line || StartsWith(feedback, line + ". ")
  }

  /** What follows the coverage part and its ". " separator; the whole text when nothing was matched. */
  function AfterCoverage(feedback: string, matched: seq<string>): string {
    var opening := CoverageLine(matched) + ". ";
    if matched == [] then feedback
    else if StartsWith(feedback, opening) then feedback[|opening|..]
    else []
  }

  /** What `_generate_feedback` promises about the text it builds. */
  ghost predicate FeedbackFits(feedback: string, matched: seq<string>, missed: seq<string>, wordCount: nat, minWords: nat) {
    && |feedback| > 0
    && (feedback == ReviewedOnly <==> matched == [] && missed == [] && wordCount >= minWords)
    && (matched != [] ==> ListingOpens(feedback, CoverageLine(matched)))
    && (missed != [] ==> ListingOpens(AfterCoverage(feedback, matched), IncludeLine(missed)))
    && (wordCount < minWords ==> EndsWith(feedback, DetailHint))
    && ((forall w :: w in matched + missed ==> IsLowerWord(w)) ==>
          (Contains(feedback, DetailHint) <==> wordCount < minWords))
  }

  /** The parts `_generate_feedback` collects before joining them with ". ". */
  function FeedbackParts(matched: seq<string>, missed: seq<string>, wordCount: nat, minWords: nat): seq<string> {
    (if |matched| > 0 then [CoverageLine(matched)] else [])
    + (if |missed| > 0 then [IncludeLine(missed)] else [])
    + (if wordCount < minWords then [DetailHint] else [])
  }

  /** The text `_generate_feedback` returns: the parts joined by ". ", or "Answer reviewed." when there are none. */
  function FeedbackText(matched: seq<string>, missed: seq<string>, wordCount: nat, minWords: nat): string {
    var parts := FeedbackParts(matched, missed, wordCount, minWords);
    if |parts| > 0 then Join(parts, ". ") else ReviewedOnly
  }

  /** A listing of lower-case keywords behind a prefix without 'A' has no capital 'A'. */
  lemma ListingLacksCapitalA(prefix: string, words: seq<string>, limit: nat)
    requires 'A' !in prefix
    requires forall w :: w in words ==> IsLowerWord(w)
    ensures 'A' !in prefix + Join(Take(words, limit), ", ")
  {
    assert forall w :: w in Take(words, limit) ==> w in words;
    if 'A' in Join(Take(words, limit), ", ") {
      JoinChars(Take(words, limit), ", ", 'A');
    }
  }

  /** The detail hint begins with a capital 'A', so a text without one cannot contain it. */
  lemma HintNeedsCapitalA(feedback: string)
    requires 'A' !in feedback
    ensures !Contains(feedback, DetailHint)
  {
    forall i | 0 <= i <= |feedback| - |DetailHint|
      ensures !OccursAt(feedback, DetailHint, i)
    {
      assert feedback[i] != DetailHint[0];
    }
  }

  /** Every part is longer than "Answer reviewed.", so a non-empty join never equals it. */
  lemma PartsJoinIsLong(matched: seq<string>, missed: seq<string>, wordCount: nat, minWords: nat)
    requires |FeedbackParts(matched, missed, wordCount, minWords)| > 0
    ensures |Join(FeedbackParts(matched, missed, wordCount, minWords), ". ")| > |ReviewedOnly|
  {
    var parts := FeedbackParts(matched, missed, wordCount, minWords);
    JoinOfLastPart(parts, ". ");
    assert |parts[|parts| - 1]| > |ReviewedOnly|;
  }

  lemma PartsCoverage(matched: seq<string>, missed: seq<string>, wordCount: nat, minWords: nat)
    requires matched != []
    ensures ListingOpens(Join(FeedbackParts(matched, missed, wordCount, minWords), ". "), CoverageLine(matched))
  {
    JoinOfFirstPart(FeedbackParts(matched, missed, wordCount, minWords), ". ");
  }

  lemma PartsInclude(matched: seq<string>, missed: seq<string>, wordCount: nat, minWords: nat)
    requires missed != []
    ensures ListingOpens(AfterCoverage(Join(FeedbackParts(matched, missed, wordCount, minWords), ". "), matched), IncludeLine(missed))
  {
    var parts := FeedbackParts(matched, missed, wordCount, minWords);
    if matched != [] {
      var opening := CoverageLine(matched) + ". ";
      assert Join(parts, ". ") == opening + Join(parts[1..], ". ");
      JoinOfFirstPart(parts, ". ");
      assert Join(parts, ". ")[|opening|..] == Join(parts[1..], ". ");
      JoinOfFirstPart(parts[1..], ". ");
    } else {
      JoinOfFirstPart(parts, ". ");
    }
  }

  lemma PartsHint(matched: seq<string>, missed: seq<string>, wordCount: nat, minWords: nat)
    requires wordCount < minWords
    ensures EndsWith(Join(FeedbackParts(matched, missed, wordCount, minWords), ". "), DetailHint)
  {
    JoinOfLastPart(FeedbackParts(matched, missed, wordCount, minWords), ". ");
  }

  lemma PartsWithoutHint(matched: seq<string>, missed: seq<string>, wordCount: nat, minWords: nat)
    requires forall w :: w in matched + missed ==> IsLowerWord(w)
    requires wordCount >= minWords
    ensures !Contains(Join(FeedbackParts(matched, missed, wordCount, minWords), ". "), DetailHint)
  {
    var parts := FeedbackParts(matched, missed, wordCount, minWords);
    assert forall w :: w in matched ==> w in matched + missed;
    assert forall w :: w in missed ==> w in matched + missed;
    ListingLacksCapitalA(CoveragePrefix, matched, 5);
    ListingLacksCapitalA(IncludePrefix, missed, 3);
    assert 'A' !in CoverageLine(matched) && 'A' !in IncludeLine(missed);
    if 'A' in Join(parts, ". ") {
      JoinChars(parts, ". ", 'A');
    }
    HintNeedsCapitalA(Join(parts, ". "));
  }

  lemma PartsFeedbackFits(matched: seq<string>, missed: seq<string>, wordCount: nat, minWords: nat)
    ensures FeedbackFits(FeedbackText(matched, missed, wordCount, minWords), matched, missed, wordCount, minWords)
  {
    var parts := FeedbackParts(matched, missed, wordCount, minWords);
    if |parts| > 0 {
      var feedback := Join(parts, ". ");
      assert |feedback| > 0 && feedback != ReviewedOnly by {
        PartsJoinIsLong(matched, missed, wordCount, minWords);
      }
      assert matched != [] ==> ListingOpens(feedback, CoverageLine(matched)) by {
        if matched != [] {
          PartsCoverage(matched, missed, wordCount, minWords);
        }
      }
      assert missed != [] ==> ListingOpens(AfterCoverage(feedback, matched), IncludeLine(missed)) by {
        if missed != [] {
          PartsInclude(matched, missed, wordCount, minWords);
        }
      }
      assert wordCount < minWords ==> EndsWith(feedback, DetailHint) && Contains(feedback, DetailHint) by {
        if wordCount < minWords {
          PartsHint(matched, missed, wordCount, minWords);
          assert OccursAt(feedback, DetailHint, |feedback| - |DetailHint|);
        }
      }
      assert (forall w :: w in matched + missed ==> IsLowerWord(w)) && wordCount >= minWords
          ==> !Contains(feedback, DetailHint) by {
        if (forall w :: w in matched + missed ==> IsLowerWord(w)) && wordCount >= minWords {
          PartsWithoutHint(matched, missed, wordCount, minWords);
        }
      }
      assert !(matched == [] && missed == [] && wordCount >= minWords);
    } else {
      assert matched == [] && missed == [] && wordCount >= minWords;
      assert !Contains(ReviewedOnly, DetailHint) by {
        assert |ReviewedOnly| < |DetailHint|;
      }
    }
  }

  /** `_generate_feedback` */
  method GenerateFeedback(matched: seq<string>, missed: seq<string>, wordCount: nat, minWords: nat)
    returns (feedback: string)
    ensures feedback == FeedbackText(matched, missed, wordCount, minWords)
    ensures FeedbackFits(feedback, matched, missed, wordCount, minWords)
  {
    var parts: seq<string> := [];
    if |matched| > 0 {
      parts := parts + [CoverageLine(matched)];
    }
    if |missed| > 0 {
      parts := parts + [IncludeLine(missed)];
    }
    if wordCount < minWords {
      parts := parts + [DetailHint];
    }
    feedback := if |parts| > 0 then Join(parts, ". ") else ReviewedOnly;
    assert parts == FeedbackParts(matched, missed, wordCount, minWords);
    PartsFeedbackFits(matched, missed, wordCount, minWords);
  }

  /** A listing of `n + 1` words continues the listing of the first `n` with ", ". */
  lemma ListingGrows(prefix: string, words: seq<string>, n: nat)
    requires 0 < n < |words|
    ensures prefix + Join(words[..n + 1], ", ") == prefix + Join(words[..n], ", ") + ", " + words[n]
  {
    assert words[..n + 1] == words[..n] + [words[n]];
    JoinAppend(words[..n], words[n], ", ");
  }

  /** A feedback that opens with `line` cannot go on with ", " right after it. */
  lemma ListingEndsAtLine(feedback: string, line: string, w: string)
    requires ListingOpens(feedback, line)
    ensures !StartsWith(feedback, line + ", " + w)
  {
    assert (line + ", " + w)[|line|] == ',';
    if feedback != line {
      assert feedback[|line|] == (line + ". ")[|line|] == '.';
    }
  }

  /**
   * The feedback names at most five matched and at most three missed keywords:
   * it never holds the listing of the first six matched, or of the first four
   * missed, keywords where the listing belongs.
   */
  lemma FeedbackListsAtMost(feedback: string, matched: seq<string>, missed: seq<string>, wordCount: nat, minWords: nat)
    requires FeedbackFits(feedback, matched, missed, wordCount, minWords)
    ensures |matched| > 5 ==> !StartsWith(feedback, CoveragePrefix + Join(matched[..6], ", "))
    ensures |missed| > 3 ==> !StartsWith(AfterCoverage(feedback, matched), IncludePrefix + Join(missed[..4], ", "))
  {
    if |matched| > 5 {
      ListingGrows(CoveragePrefix, matched, 5);
      ListingEndsAtLine(feedback, CoverageLine(matched), matched[5]);
    }
    if |missed| > 3 {
      ListingGrows(IncludePrefix, missed, 3);
      ListingEndsAtLine(AfterCoverage(feedback, matched), IncludeLine(missed), missed[3]);
    }
  }

  // ---------------------------------------------------------------------------
  // Grading

  /** What `grading_details` records about the keyword split, the word count and the factors. */
  ghost predicate KeywordDetailsFit(m: MathLib, student: string, expected: string, d: Details) {
    && d.KeywordDetails?
    && NoDup(d.matchedKeywords) && NoDup(d.missedKeywords)
    && SetOf(d.matchedKeywords) == MatchedSet(student, expected)
    && SetOf(d.missedKeywords) == KeywordSet(expected) - MatchedSet(student, expected)
    && d.wordCount == WordCount(student)
    && d.matchPercentage == m.round(PerCent(MatchRatio(student, expected)), 2)
    && d.lengthFactor == m.round(LengthFactor(WordCount(student)), 2)
  }

  /** Everything `KeywordMatchingGrader.grade` promises about its result. */
  ghost predicate IsKeywordGrade(m: MathLib, student: string, expected: string, maxMarks: real, r: GradeResult) {
    && KeywordDetailsFit(m, student, expected, r.details)
    && r.score == KeywordScore(m, student, expected, maxMarks)
    && r.feedback == FeedbackText(r.details.matchedKeywords, r.details.missedKeywords, WordCount(student), MinWords)
    && FeedbackFits(r.feedback, r.details.matchedKeywords, r.details.missedKeywords, WordCount(student), MinWords)
  }

  /** The loop of `grade` that sorts each keyword into matched or missed, keeping list order. */
  method SplitKeywords(keywords: seq<string>, studentLower: string) returns (matched: seq<string>, missed: seq<string>)
    ensures matched == Matching(keywords, studentLower)
    ensures missed == Missing(keywords, studentLower)
  {
    matched, missed := [], [];
    var i := 0;
    while i < |keywords|
      invariant 0 <= i <= |keywords|
      invariant matched == Matching(keywords[..i], studentLower)
      invariant missed == Missing(keywords[..i], studentLower)
    {
      var keyword := keywords[i];
      if Contains(studentLower, Lower(keyword)) {
        matched := matched + [keyword];
      } else {
        missed := missed + [keyword];
      }
      assert keywords[..i + 1][..i] == keywords[..i];
      i := i + 1;
    }
    assert keywords[..i] == keywords;
  }

  /** `KeywordMatchingGrader.grade` (the rubric argument is never read). */
  method GradeKeyword(m: MathLib, student: string, expected: string, maxMarks: real) returns (r: GradeResult)
    ensures IsKeywordGrade(m, student, expected, maxMarks, r)
  {
    var keywords := ExtractKeywords(expected);
    var matched, missed := SplitKeywords(keywords, Lower(student));
    var matchPercentage := if |keywords| > 0 then |matched| as real / |keywords| as real else 0.5;
    var wordCount := WordCount(student);
    var lengthFactor := if wordCount < MinWords then Min(1.0, wordCount as real / MinWords as real) else 1.0;
    var finalScore := Scaled(maxMarks, matchPercentage, lengthFactor);
    var feedback := GenerateFeedback(matched, missed, wordCount, MinWords);
    var details := KeywordDetails(matched, missed, m.round(PerCent(matchPercentage), 2), wordCount, m.round(lengthFactor, 2));
    KeywordFieldsHold(m, student, expected, maxMarks, keywords, matched, missed, matchPercentage, lengthFactor);
    r := GradeResult(m.round(finalScore, 2), feedback, details);
  }

  /** The details and the score `grade` computes from the keyword split are the ones `IsKeywordGrade` names. */
  lemma KeywordFieldsHold(
    m: MathLib, student: string, expected: string, maxMarks: real,
    keywords: seq<string>, matched: seq<string>, missed: seq<string>,
    matchPercentage: real, lengthFactor: real)
    requires NoDup(keywords) && SetOf(keywords) == KeywordSet(expected) && |keywords| == |KeywordSet(expected)|
    requires matched == Matching(keywords, Lower(student)) && missed == Missing(keywords, Lower(student))
    requires matchPercentage == if |keywords| > 0 then |matched| as real / |keywords| as real else 0.5
    requires lengthFactor ==
      if WordCount(student) < MinWords then Min(1.0, WordCount(student) as real / MinWords as real) else 1.0
    ensures KeywordDetailsFit(m, student, expected, KeywordDetails(
      matched, missed, m.round(PerCent(matchPercentage), 2), WordCount(student), m.round(lengthFactor, 2)))
    ensures m.round(Scaled(maxMarks, matchPercentage, lengthFactor), 2) == KeywordScore(m, student, expected, maxMarks)
  {
    assert
      && NoDup(matched) && NoDup(missed)
      && SetOf(matched) == MatchedSet(student, expected)
      && SetOf(missed) == KeywordSet(expected) - MatchedSet(student, expected)
      && |matched| == |MatchedSet(student, expected)|
    by {
      SplitMeetsSpec(keywords, student, expected);
    }
    assert matchPercentage == MatchRatio(student, expected);
    assert lengthFactor == LengthFactor(WordCount(student));
  }
}
