/**
 * CosineSimilarityGrader: TF-IDF vectors of the two answers over the
 * two-document corpus [student, expected], their cosine similarity, and a
 * score proportional to its square root.
 */
module CosineSimilarity {
  import opened Text
  import opened Numerics
  import opened Grading

  const Excellent: string := "Excellent answer with strong alignment to expected content."
  const Good: string := "Good answer, captures most key points."
  const Adequate: string := "Adequate answer, but could be more comprehensive."
  const NeedsWork: string := "Answer needs improvement. Review the question carefully."

  /** `_tokenize`: the all-letter words of the lower-cased text, in order, each a non-empty lower-case word. */
  function Tokenize(text: string): (tokens: seq<string>)
    ensures AllLowerWords(tokens)
  {
    AllTokensOfLowerAreLowerWords(text);
    Tokens(Lower(text))
  }

  // ---------------------------------------------------------------------------
  // TF-IDF

  /** `sum(1 for doc in all_documents if term in doc)` */
  function DocCount(term: string, docs: seq<seq<string>>): (n: nat)
    ensures n <= |docs|
  {
    if docs == [] then 0
    else DocCount(term, docs[..|docs| - 1]) + (if term in docs[|docs| - 1] then 1 else 0)
  }

  /** `idf[term]`: the logarithm of the number of documents over one more than those containing the term. */
  function Idf(m: MathLib, term: string, docs: seq<seq<string>>): real {
    IdfOf(m, |docs|, DocCount(term, docs))
  }

  /** `math.log(len(all_documents) / (doc_count + 1))` */
  function IdfOf(m: MathLib, documents: nat, docCount: nat): real {
    m.log(documents as real / (docCount + 1) as real)
  }

  /** The vector `_compute_tfidf` returns: relative term frequency times idf, for each distinct token. */
  function TfIdfVector(m: MathLib, tokens: seq<string>, docs: seq<seq<string>>): (v: map<string, real>)
    ensures v.Keys == SetOf(tokens)
  {
    map t | t in tokens :: Weight(multiset(tokens)[t], |tokens|, Idf(m, t, docs))
  }

  /** `(freq / total_terms) * idf` */
  function Weight(freq: nat, totalTerms: nat, idf: real): real
    requires totalTerms > 0
  {
    (freq as real / totalTerms as real) * idf
  }

  /** The first loop of `_compute_tfidf`: the idf of each distinct token. */
  method IdfTable(m: MathLib, tokens: seq<string>, docs: seq<seq<string>>) returns (idf: map<string, real>)
    ensures idf.Keys == SetOf(tokens)
    ensures forall t :: t in idf ==> idf[t] == Idf(m, t, docs)
  {
    idf := map[];
    var terms := SetOf(tokens);
    while terms != {}
      invariant terms <= SetOf(tokens)
      invariant idf.Keys == SetOf(tokens) - terms
      invariant forall t :: t in idf ==> idf[t] == Idf(m, t, docs)
      decreases |terms|
    {
      var term :| term in terms;
      var docCount := DocCount(term, docs);
      idf := idf[term := IdfOf(m, |docs|, docCount)];
      terms := terms - {term};
    }
  }

  /** `_compute_tfidf` */
  method ComputeTfIdf(m: MathLib, tokens: seq<string>, docs: seq<seq<string>>) returns (tfidf: map<string, real>)
    ensures tfidf == TfIdfVector(m, tokens, docs)
  {
    var tf := multiset(tokens);
    var totalTerms := |tokens|;
    var idf := IdfTable(m, tokens, docs);

    tfidf := map[];
    var items := set t | t in tf;
    assert items == SetOf(tokens) by {
      forall t
        ensures t in items <==> t in tokens
      {
        assert t in tf <==> t in tokens;
      }
    }
    while items != {}
      invariant items <= SetOf(tokens)
      invariant tfidf.Keys == SetOf(tokens) - items
      invariant forall t :: t in tfidf ==> t in tokens && tfidf[t] == Weight(tf[t], totalTerms, Idf(m, t, docs))
      decreases |items|
    {
      var term :| term in items;
      var freq := tf[term];
      tfidf := tfidf[term := Weight(freq, totalTerms, if term in idf then idf[term] else 0.0)];
      items := items - {term};
    }
    assert tfidf.Keys == TfIdfVector(m, tokens, docs).Keys;
  }

  /** For the two-document corpus, a term is counted once for each answer it occurs in. */
  lemma DocCountOfPair(term: string, a: seq<string>, b: seq<string>)
    ensures DocCount(term, [a, b]) == (if term in a then 1 else 0) + (if term in b then 1 else 0)
  {
    assert [a, b][..1] == [a];
    assert [a][..0] == [];
  }

  /**
   * With add-one smoothing and two documents, a term of both answers weighs
   * log(2/3) < 0 and a term of only one answer weighs log(2/2) = 0. Only shared
   * terms count.
   */
  lemma WeightSign(m: MathLib, a: seq<string>, b: seq<string>, docs: seq<seq<string>>, t: string)
    requires Lawful(m)
    requires docs == [a, b] || docs == [b, a]
    requires t in a
    ensures t in b ==> TfIdfVector(m, a, docs)[t] < 0.0
    ensures t !in b ==> TfIdfVector(m, a, docs)[t] == 0.0
  {
    DocCountOfPair(t, docs[0], docs[1]);
    assert docs == [docs[0], docs[1]];
    var freq := multiset(a)[t] as real / |a| as real;
    assert freq > 0.0;
    if t in b {
      assert Idf(m, t, docs) == m.log(2.0 / 3.0);
      NegativeTimesPositive(m.log(2.0 / 3.0), freq);
    } else {
      assert Idf(m, t, docs) == m.log(1.0);
    }
    assert TfIdfVector(m, a, docs)[t] == freq * Idf(m, t, docs);
  }

  lemma NegativeTimesPositive(x: real, y: real)
    requires x < 0.0 && y > 0.0
    ensures y * x < 0.0
  {
  }

  // ---------------------------------------------------------------------------
  // Cosine similarity

  /** `vec.get(term, 0)` */
  function Get(v: map<string, real>, t: string): real {
    if t in v then v[t] else 0.0
  }

  /** `vec1.get(term, 0) * vec2.get(term, 0)` */
  function Product(v1: map<string, real>, v2: map<string, real>, t: string): real {
    Get(v1, t) * Get(v2, t)
  }

  /** The sum over `terms` of the products of the two vectors' entries, in no particular order. */
  ghost function DotOver(terms: set<string>, v1: map<string, real>, v2: map<string, real>): real
    decreases |terms|
  {
    if terms == {} then 0.0
    else
      var t :| t in terms;
      Product(v1, v2, t) + DotOver(terms - {t}, v1, v2)
  }

  /** The sum does not depend on which term is taken first. */
  lemma {:induction false} DotOverRemove(terms: set<string>, v1: map<string, real>, v2: map<string, real>, x: string)
    requires x in terms
    ensures DotOver(terms, v1, v2) == Product(v1, v2, x) + DotOver(terms - {x}, v1, v2)
    decreases |terms|
  {
    var t :| t in terms && DotOver(terms, v1, v2) == Product(v1, v2, t) + DotOver(terms - {t}, v1, v2);
    if t != x {
      DotOverRemove(terms - {t}, v1, v2, x);
      DotOverRemove(terms - {x}, v1, v2, t);
      assert terms - {t} - {x} == terms - {x} - {t};
    }
  }

  /** `sum(vec1.get(term, 0) * vec2.get(term, 0) for term in terms)` */
  method SumOfProducts(terms: set<string>, v1: map<string, real>, v2: map<string, real>) returns (total: real)
    ensures total == DotOver(terms, v1, v2)
  {
    total := 0.0;
    var remaining := terms;
    while remaining != {}
      invariant remaining <= terms
      invariant total + DotOver(remaining, v1, v2) == DotOver(terms, v1, v2)
      decreases |remaining|
    {
      var t :| t in remaining;
      DotOverRemove(remaining, v1, v2, t);
      total := total + Product(v1, v2, t);
      remaining := remaining - {t};
    }
  }

  /** `_cosine_similarity`, with 0 for two empty vectors or a zero magnitude. */
  ghost function Cosine(m: MathLib, v1: map<string, real>, v2: map<string, real>): real {
    if v1.Keys + v2.Keys == {} then 0.0
    else CosineOfSums(m, DotOver(v1.Keys + v2.Keys, v1, v2), DotOver(v1.Keys, v1, v1), DotOver(v2.Keys, v2, v2))
  }

  /** The dot product over the product of the magnitudes, or 0 when a magnitude is 0. */
  function CosineOfSums(m: MathLib, dotProduct: real, squares1: real, squares2: real): real {
    var mag1 := m.sqrt(squares1);
    var mag2 := m.sqrt(squares2);
    if mag1 == 0.0 || mag2 == 0.0 then 0.0 else ProductNonZero(mag1, mag2); dotProduct / (mag1 * mag2)
  }

  lemma ProductNonZero(x: real, y: real)
    requires x != 0.0 && y != 0.0
    ensures x * y != 0.0
  {
  }

  /** `_cosine_similarity` */
  method CosineOf(m: MathLib, vec1: map<string, real>, vec2: map<string, real>) returns (similarity: real)
    ensures similarity == Cosine(m, vec1, vec2)
  {
    var allTerms := vec1.Keys + vec2.Keys;
    if allTerms == {} {
      similarity := 0.0;
    } else {
      var dotProduct := SumOfProducts(allTerms, vec1, vec2);
      var squares1 := SumOfProducts(vec1.Keys, vec1, vec1);
      var squares2 := SumOfProducts(vec2.Keys, vec2, vec2);
      similarity := DivideByMagnitudes(m, dotProduct, squares1, squares2);
      CosineOfSumsUnique(m, dotProduct, squares1, squares2, similarity);
    }
  }

  /**
   * The end of `_cosine_similarity`: 0 when either magnitude is 0, and otherwise
   * the number that, times the product of the magnitudes, gives the dot product.
   */
  method DivideByMagnitudes(m: MathLib, dotProduct: real, squares1: real, squares2: real) returns (similarity: real)
    ensures m.sqrt(squares1) == 0.0 || m.sqrt(squares2) == 0.0 ==> similarity == 0.0
    ensures m.sqrt(squares1) != 0.0 && m.sqrt(squares2) != 0.0 ==>
      similarity * (m.sqrt(squares1) * m.sqrt(squares2)) == dotProduct
  {
    var mag1 := m.sqrt(squares1);
    var mag2 := m.sqrt(squares2);
    if mag1 == 0.0 || mag2 == 0.0 {
      similarity := 0.0;
    } else {
      ProductNonZero(mag1, mag2);
      similarity := dotProduct / (mag1 * mag2);
      QuotientTimesDivisor(dotProduct, mag1 * mag2);
    }
  }

  lemma QuotientTimesDivisor(d: real, p: real)
    requires p != 0.0
    ensures d / p * p == d
  {
  }

  /** `CosineOfSums` is the only value meeting the contract of `DivideByMagnitudes`. */
  lemma CosineOfSumsUnique(m: MathLib, dotProduct: real, squares1: real, squares2: real, similarity: real)
    requires m.sqrt(squares1) == 0.0 || m.sqrt(squares2) == 0.0 ==> similarity == 0.0
    requires m.sqrt(squares1) != 0.0 && m.sqrt(squares2) != 0.0 ==>
      similarity * (m.sqrt(squares1) * m.sqrt(squares2)) == dotProduct
    ensures similarity == CosineOfSums(m, dotProduct, squares1, squares2)
  {
    var mag1, mag2 := m.sqrt(squares1), m.sqrt(squares2);
    if mag1 != 0.0 && mag2 != 0.0 {
      ProductNonZero(mag1, mag2);
      QuotientUnique(similarity, dotProduct, mag1 * mag2);
    }
  }

  /** Only the quotient, times a non-zero divisor, gives back the dividend. */
  lemma QuotientUnique(x: real, d: real, p: real)
    requires p != 0.0 && x * p == d
    ensures x == d / p
  {
  }

  lemma {:induction false} DotOverNonNegative(terms: set<string>, v1: map<string, real>, v2: map<string, real>)
    requires forall t :: t in terms ==> Product(v1, v2, t) >= 0.0
    ensures DotOver(terms, v1, v2) >= 0.0
    decreases |terms|
  {
    if terms != {} {
      var t :| t in terms;
      DotOverRemove(terms, v1, v2, t);
      DotOverNonNegative(terms - {t}, v1, v2);
    }
  }

  lemma {:induction false} DotOverZero(terms: set<string>, v1: map<string, real>, v2: map<string, real>)
    requires forall t :: t in terms ==> Product(v1, v2, t) == 0.0
    ensures DotOver(terms, v1, v2) == 0.0
    decreases |terms|
  {
    if terms != {} {
      var t :| t in terms;
      DotOverRemove(terms, v1, v2, t);
      DotOverZero(terms - {t}, v1, v2);
    }
  }

  lemma SquareNonNegative(x: real)
    ensures x * x >= 0.0
  {
    if x < 0.0 {
      assert x * x == (-x) * (-x);
    }
  }

  /** A sum of squares is positive as soon as one entry is non-zero. */
  lemma SquaresPositive(terms: set<string>, v: map<string, real>, x: string)
    requires x in terms && Get(v, x) != 0.0
    ensures DotOver(terms, v, v) > 0.0
  {
    DotOverRemove(terms, v, v, x);
    SquaresNonNegative(terms - {x}, v);
    ProductOfEqualPositive(v, v, x);
  }

  /** Stated for two maps known to be equal, which the arithmetic decides more readily than a literal square. */
  lemma ProductOfEqualPositive(v1: map<string, real>, v2: map<string, real>, x: string)
    requires v1 == v2 && Get(v1, x) != 0.0
    ensures Product(v1, v2, x) > 0.0
  {
  }

  lemma SquaresNonNegative(terms: set<string>, v: map<string, real>)
    ensures DotOver(terms, v, v) >= 0.0
  {
    forall t | t in terms
      ensures Product(v, v, t) >= 0.0
    {
      SquareNonNegative(Get(v, t));
    }
    DotOverNonNegative(terms, v, v);
  }

  // ---------------------------------------------------------------------------
  // Grading

  /** `_generate_similarity_feedback`: one of four messages, the best from 0.8 up and the worst below 0.4. */
  function SimilarityFeedback(similarity: real): (feedback: string)
    ensures feedback in {Excellent, Good, Adequate, NeedsWork}
    ensures feedback == Excellent <==> similarity >= 0.8
    ensures feedback == NeedsWork <==> similarity < 0.4
  {
    if similarity >= 0.8 then Excellent
    else if similarity >= 0.6 then Good
    else if similarity >= 0.4 then Adequate
    else NeedsWork
  }

  /** The four messages from worst (0) to best (3). */
  function FeedbackRank(feedback: string): nat {
    if feedback == Excellent then 3
    else if feedback == Good then 2
    else if feedback == Adequate then 1
    else 0
  }

  /** A higher similarity never gets a worse message, and the thresholds are where the message changes. */
  lemma FeedbackMonotone(s1: real, s2: real)
    requires s1 <= s2
    ensures FeedbackRank(SimilarityFeedback(s1)) <= FeedbackRank(SimilarityFeedback(s2))
    ensures FeedbackRank(SimilarityFeedback(s1)) == (if s1 >= 0.8 then 3 else if s1 >= 0.6 then 2 else if s1 >= 0.4 then 1 else 0)
  {
  }

  /** The similarity `CosineSimilarityGrader` computes for a pair of answers. */
  ghost function Similarity(m: MathLib, student: string, expected: string): real {
    var st, et := Tokenize(student), Tokenize(expected);
    Cosine(m, TfIdfVector(m, st, [st, et]), TfIdfVector(m, et, [st, et]))
  }

  /** `max_marks * adjusted_similarity` */
  function CosineScore(maxMarks: real, adjusted: real): real {
    maxMarks * adjusted
  }

  /** Everything `CosineSimilarityGrader.grade` promises about its result. */
  ghost predicate IsCosineGrade(m: MathLib, student: string, expected: string, maxMarks: real, r: GradeResult) {
    var similarity := Similarity(m, student, expected);
    var adjusted := m.sqrt(similarity);
    && r.score == m.round(CosineScore(maxMarks, adjusted), 2)
    && r.feedback == SimilarityFeedback(similarity)
    && r.details == CosineDetails(
         m.round(similarity, 4), m.round(adjusted, 4), |Tokenize(student)|, |Tokenize(expected)|)
  }

  /** The first steps of `CosineSimilarityGrader.grade`: tokens, TF-IDF vectors and their cosine. */
  method SimilarityOfAnswers(m: MathLib, student: string, expected: string)
    returns (similarity: real, studentCount: nat, expectedCount: nat)
    ensures similarity == Similarity(m, student, expected)
    ensures studentCount == |Tokenize(student)| && expectedCount == |Tokenize(expected)|
  {
    var studentTokens := Tokenize(student);
    var expectedTokens := Tokenize(expected);
    var studentVector := ComputeTfIdf(m, studentTokens, [studentTokens, expectedTokens]);
    var expectedVector := ComputeTfIdf(m, expectedTokens, [studentTokens, expectedTokens]);
    similarity := CosineOf(m, studentVector, expectedVector);
    studentCount, expectedCount := |studentTokens|, |expectedTokens|;
  }

  /** `CosineSimilarityGrader.grade` (the rubric argument is never read). */
  method GradeCosine(m: MathLib, student: string, expected: string, maxMarks: real) returns (r: GradeResult)
    ensures IsCosineGrade(m, student, expected, maxMarks, r)
  {
    var similarity, studentCount, expectedCount := SimilarityOfAnswers(m, student, expected);
    var adjustedSimilarity := m.sqrt(similarity);
    var score := CosineScore(maxMarks, adjustedSimilarity);
    var feedback := SimilarityFeedback(similarity);
    r := GradeResult(
      m.round(score, 2),
      feedback,
      CosineDetails(m.round(similarity, 4), m.round(adjustedSimilarity, 4), studentCount, expectedCount));
    CosineGradeFromParts(m, student, expected, maxMarks, similarity, r);
  }

  /** A result built from the similarity of the two answers and their token counts is a cosine grade. */
  lemma CosineGradeFromParts(m: MathLib, student: string, expected: string, maxMarks: real, similarity: real, r: GradeResult)
    requires similarity == Similarity(m, student, expected)
    requires r.score == m.round(CosineScore(maxMarks, m.sqrt(similarity)), 2)
    requires r.feedback == SimilarityFeedback(similarity)
    requires r.details == CosineDetails(
      m.round(similarity, 4), m.round(m.sqrt(similarity), 4), |Tokenize(student)|, |Tokenize(expected)|)
    ensures IsCosineGrade(m, student, expected, maxMarks, r)
  {
  }

  // ---------------------------------------------------------------------------
  // Properties of the similarity

  /** Every TF-IDF weight in the two-answer corpus is zero or negative. */
  lemma WeightsNonPositive(m: MathLib, a: seq<string>, b: seq<string>, docs: seq<seq<string>>, t: string)
    requires Lawful(m)
    requires docs == [a, b] || docs == [b, a]
    ensures Get(TfIdfVector(m, a, docs), t) <= 0.0
  {
    if t in a {
      WeightSign(m, a, b, docs, t);
    }
  }

  lemma NonPositiveProduct(x: real, y: real)
    requires x <= 0.0 && y <= 0.0
    ensures x * y >= 0.0
  {
    assert x * y == (-x) * (-y);
  }

  /** A non-negative dot product gives a non-negative cosine. */
  lemma CosineOfSumsNonNegative(m: MathLib, dotProduct: real, squares1: real, squares2: real)
    requires Lawful(m) && dotProduct >= 0.0 && squares1 >= 0.0 && squares2 >= 0.0
    ensures CosineOfSums(m, dotProduct, squares1, squares2) >= 0.0
  {
    var mag1, mag2 := m.sqrt(squares1), m.sqrt(squares2);
    if mag1 != 0.0 && mag2 != 0.0 {
      assert mag1 > 0.0 && mag2 > 0.0;
      assert mag1 * mag2 > 0.0;
    }
  }

  /** A vector is fully similar to itself once its magnitude is non-zero. */
  lemma CosineOfSumsSelf(m: MathLib, squares: real)
    requires Lawful(m) && squares > 0.0
    ensures CosineOfSums(m, squares, squares, squares) == 1.0
  {
    var mag := m.sqrt(squares);
    assert mag * mag == squares;
    assert mag != 0.0;
  }

  /** A zero vector has magnitude 0, which makes the cosine 0. */
  lemma CosineOfSumsZero(m: MathLib, dotProduct: real, squares2: real)
    requires Lawful(m)
    ensures CosineOfSums(m, dotProduct, 0.0, squares2) == 0.0
  {
  }

  /** Corresponding entries of the two answers' vectors never have opposite signs. */
  lemma ProductsNonNegative(m: MathLib, st: seq<string>, et: seq<string>, t: string)
    requires Lawful(m)
    ensures Product(TfIdfVector(m, st, [st, et]), TfIdfVector(m, et, [st, et]), t) >= 0.0
  {
    var docs := [st, et];
    WeightsNonPositive(m, st, et, docs, t);
    WeightsNonPositive(m, et, st, docs, t);
    NonPositiveProduct(Get(TfIdfVector(m, st, docs), t), Get(TfIdfVector(m, et, docs), t));
  }

  /** Vectors whose entries pairwise never have opposite signs have a non-negative cosine. */
  lemma CosineNonNegative(m: MathLib, v1: map<string, real>, v2: map<string, real>)
    requires Lawful(m)
    requires forall t :: t in v1.Keys + v2.Keys ==> Product(v1, v2, t) >= 0.0
    ensures Cosine(m, v1, v2) >= 0.0
  {
    if v1.Keys + v2.Keys != {} {
      DotOverNonNegative(v1.Keys + v2.Keys, v1, v2);
      SquaresNonNegative(v1.Keys, v1);
      SquaresNonNegative(v2.Keys, v2);
      CosineOfSumsNonNegative(m, DotOver(v1.Keys + v2.Keys, v1, v2), DotOver(v1.Keys, v1, v1), DotOver(v2.Keys, v2, v2));
    }
  }

  /** Both vectors lie in the same closed orthant, so the similarity is never negative. */
  lemma SimilarityNonNegative(m: MathLib, student: string, expected: string)
    requires Lawful(m)
    ensures Similarity(m, student, expected) >= 0.0
  {
    var st, et := Tokenize(student), Tokenize(expected);
    var v1, v2 := TfIdfVector(m, st, [st, et]), TfIdfVector(m, et, [st, et]);
    forall t | t in v1.Keys + v2.Keys
      ensures Product(v1, v2, t) >= 0.0
    {
      ProductsNonNegative(m, st, et, t);
    }
    CosineNonNegative(m, v1, v2);
  }

  /** With a non-negative mark the essay score is never negative. */
  lemma CosineScoreNonNegative(m: MathLib, student: string, expected: string, maxMarks: real)
    requires Lawful(m) && maxMarks >= 0.0
    ensures 0.0 <= m.round(CosineScore(maxMarks, m.sqrt(Similarity(m, student, expected))), 2)
  {
    SimilarityNonNegative(m, student, expected);
    RoundedScoreNonNegative(m, maxMarks, Similarity(m, student, expected));
  }

  lemma RoundedScoreNonNegative(m: MathLib, maxMarks: real, similarity: real)
    requires Lawful(m) && maxMarks >= 0.0 && similarity >= 0.0
    ensures 0.0 <= m.round(CosineScore(maxMarks, m.sqrt(similarity)), 2)
  {
    var adjusted := m.sqrt(similarity);
    NonNegativeScale(maxMarks, adjusted);
    RoundZero(m, 2);
    RoundMonotone(m, 0.0, CosineScore(maxMarks, adjusted), 2);
  }

  /**
   * Answers without a common word get similarity 0 and score 0 (in particular an
   * answer with no alphabetic word at all), because only shared terms weigh anything.
   */
  lemma NoSharedTermScoresZero(m: MathLib, student: string, expected: string, maxMarks: real)
    requires Lawful(m)
    requires forall w :: w in Tokenize(student) ==> w !in Tokenize(expected)
    ensures Similarity(m, student, expected) == 0.0
    ensures m.round(CosineScore(maxMarks, m.sqrt(Similarity(m, student, expected))), 2) == 0.0
  {
    var st, et := Tokenize(student), Tokenize(expected);
    var docs := [st, et];
    var v1, v2 := TfIdfVector(m, st, docs), TfIdfVector(m, et, docs);
    if v1.Keys + v2.Keys != {} {
      forall t | t in v1.Keys
        ensures Product(v1, v1, t) == 0.0
      {
        WeightSign(m, st, et, docs, t);
      }
      DotOverZero(v1.Keys, v1, v1);
      CosineOfSumsZero(m, DotOver(v1.Keys + v2.Keys, v1, v2), DotOver(v2.Keys, v2, v2));
    }
    assert CosineScore(maxMarks, m.sqrt(0.0)) == 0.0;
    RoundZero(m, 2);
  }

  /** An answer whose words are exactly the expected ones, in any case, is fully similar and earns the rounded mark. */
  lemma IdenticalTokensScoreFull(m: MathLib, student: string, expected: string, maxMarks: real)
    requires Lawful(m)
    requires Tokenize(student) == Tokenize(expected) != []
    ensures Similarity(m, student, expected) == 1.0
    ensures m.round(CosineScore(maxMarks, m.sqrt(Similarity(m, student, expected))), 2) == m.round(maxMarks, 2)
  {
    var st := Tokenize(student);
    var docs := [st, st];
    var v := TfIdfVector(m, st, docs);
    assert v.Keys + v.Keys == v.Keys;
    var x := st[0];
    WeightSign(m, st, st, docs, x);
    SquaresPositive(v.Keys, v, x);
    CosineOfSumsSelf(m, DotOver(v.Keys, v, v));
    assert CosineScore(maxMarks, m.sqrt(1.0)) == maxMarks;
  }
}
