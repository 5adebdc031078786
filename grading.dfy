/** The result envelope every grading strategy returns: (score, feedback, details). */
module Grading {

  /** The strategy-specific `grading_details` dictionary; the variant is its 'strategy' entry. */
  datatype Details =
    | KeywordDetails(
        matchedKeywords: seq<string>,
        missedKeywords: seq<string>,
        matchPercentage: real,
        wordCount: nat,
        lengthFactor: real)
    | CosineDetails(
        similarityScore: real,
        adjustedSimilarity: real,
        studentWordCount: nat,
        expectedWordCount: nat)
    | McqDetails(
        isCorrect: bool,
        studentAnswer: string,
        expectedAnswer: string)
  {
    function Strategy(): string {
      match this
      case KeywordDetails(_, _, _, _, _) => "keyword_matching"
      case CosineDetails(_, _, _, _) => "cosine_similarity"
      case McqDetails(_, _, _) => "mcq"
    }
  }

  datatype GradeResult = GradeResult(score: real, feedback: string, details: Details)
}
