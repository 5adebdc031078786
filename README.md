# Assessment Engine grading core in Dafny

This project models the automatic grading core of the Assessment Engine, a
Django service that grades student answers to exam questions. It also models
the model-level and serializer-level checks that decide whether an exam is
open and whether a submitted answer set is accepted.

- **Keyword matching** (`short_answer` questions, and any unknown type).
  Keywords are the distinct lower-cased letter words of at least three
  letters in the expected answer, minus a fixed list of 38 stop words. Each
  keyword is matched or missed by a substring test against the lower-cased
  student answer. The score is
  `max_marks * match_ratio * length_factor`, rounded to two places.
  - The ratio is 0.5 when the expected answer has no keywords.
  - The length factor is `word_count / 10` below ten words, and 1 otherwise.
  - The feedback lists at most five matched and three missed keywords and
    adds a hint for short answers.
  - Modelled in `keyword.dfy`.
- **TF-IDF cosine similarity** (`essay` questions). Both answers are
  tokenised into lower-case letter runs. Each becomes a TF-IDF vector over
  the two-document corpus, using the IDF `log(2 / (df + 1))`, whose
  `+ 1` is add-one smoothing of the document frequency.
  The score is `max_marks * sqrt(cosine)`, and the feedback has four tiers.
  Modelled in `cosine.dfy`.
- **Exact match** (`mcq` and `true_false` questions). Both answers are
  stripped and lower-cased. A match earns full marks; anything else earns
  nothing, and the feedback gives the expected answer. Modelled in `mcq.dfy`.
- **GradingService**. It picks the grading strategy for a question type, grades every
  item of a submission, and totals the score, the maximum and the
  percentage. Modelled in `service.dfy`.
- **Exam and Submission**. `Exam.is_active` checks the status and the
  optional start and end times. `Submission.calculate_percentage` and
  `Submission.is_passed` work on the submission's score. Modelled in
  `models.dfy`.
- **SubmissionCreateSerializer**. It checks for a non-empty answer list
  without repeated questions, where every question belongs to the exam.
  Modelled in `serializers.dfy`.

Shared pieces:
- `text.dfy` holds the string operations the grading strategies rely on:
  - ASCII lower-casing;
  - `strip()`;
  - `split()` as maximal runs of non-space characters;
  - `re.findall` of a word pattern as maximal runs of word characters that
    are all letters;
  - `join`, and duplicate detection.
- `numerics.dfy` holds `math.log`, `math.sqrt` and `round`. They are
  parameters (`MathLib`), and `Lawful` lists the only facts the proofs use
  about them.
- `grading.dfy` holds the `(score, feedback, grading_details)` triple.
- `wrappers.dfy` holds `Option` (Python's `None`) and `Result` (a value or a
  `ValidationError` message).

Where the code's behaviour may surprise a reader, the model follows the
code:
- A question type with no registered grader is graded by keyword matching.
  It is not rejected.
- The length factor is the absolute `word_count / 10`. It is not relative
  to the expected answer's length.
- An expected answer with no keywords gives a match ratio of 0.5.
- The IDF smooths the document frequency by adding one. With only two
  documents, that smoothing makes a term found in both weigh `log(2/3) < 0`
  and a term found in only one weigh `log(1) = 0` (see
  `CosineSimilarity.WeightSign`). So only shared terms influence the
  similarity.
- The cosine and keyword scores are never clamped. The MCQ score is not
  rounded.

The order of `list(set(keywords))` is unspecified in Python. The model picks
keywords from the set nondeterministically (`KeywordMatching.ExtractKeywords`),
and every property about keywords is stated independently of their order.

## Model

| member | source | states |
|---|---|---|
| Text.LowerIdempotent | assessment/grading_service.py:169-170 | lower-casing twice is lower-casing once |
| Text.StripUnpadded | assessment/grading_service.py:169-170 | `strip()` leaves a text without surrounding whitespace unchanged |
| Text.RunsCharacterized | assessment/grading_service.py:40 | a word of `split()` is exactly a maximal run of non-whitespace characters |
| Text.RunsEmpty | assessment/grading_service.py:40 | `split()` gives no words exactly when the text is all whitespace |
| Text.WordCountZero | assessment/grading_service.py:40 | the word count is 0 exactly when the answer is blank |
| Text.TokensCharacterized | assessment/grading_service.py:119 | a regex token is exactly a maximal word-character run made only of letters |
| Text.TokensOfLowerAreLowerWords | assessment/grading_service.py:68 | the tokens of a lower-cased text are non-empty lower-case letter words |
| Text.JoinOfFirstPart | assessment/grading_service.py:86 | the `". "`-joined feedback is its only part, or starts with its first part followed by `". "` |
| Text.JoinOfLastPart | assessment/grading_service.py:86 | the joined feedback ends with its last part |
| Text.NoDupIffSetSize | assessment/serializers.py:95-97 | `len(ids) == len(set(ids))` holds exactly when no id repeats |
| KeywordMatching.LongNonStopMember | assessment/grading_service.py:69 | a word survives the filter exactly when it has at least 3 letters and is not a stop word |
| KeywordMatching.KeywordSetCharacterized | assessment/grading_service.py:60-71 | a keyword is exactly a lower-cased letter token of 3 or more letters that is not a stop word |
| KeywordMatching.KeywordShape | assessment/grading_service.py:60-71 | every keyword is a lower-case word of at least 3 letters, not a stop word, and unchanged by `lower()` |
| KeywordMatching.ExtractKeywords | assessment/grading_service.py:60-71 | the returned list has no duplicates and holds exactly the keyword set, so its length is the set's size |
| KeywordMatching.MatchingMember | assessment/grading_service.py:28-32 | a keyword is matched exactly when its lower-case form occurs in the lower-cased student answer |
| KeywordMatching.MissingMember | assessment/grading_service.py:28-32 | a keyword is missed exactly when its lower-case form does not occur in the student answer |
| KeywordMatching.MatchingPartition | assessment/grading_service.py:28-32 | matched and missed together are a permutation of the keywords |
| KeywordMatching.PartitionStep | assessment/grading_service.py:28-32 | each keyword lands in exactly one of the matched and missed lists |
| KeywordMatching.MatchingNoDup | assessment/grading_service.py:28-32 | distinct keywords give a matched list without duplicates |
| KeywordMatching.MissingNoDup | assessment/grading_service.py:28-32 | distinct keywords give a missed list without duplicates |
| KeywordMatching.MatchedSet | assessment/grading_service.py:28-32 | the matched keywords are a subset of the expected answer's keywords |
| KeywordMatching.MatchedIffSubstring | assessment/grading_service.py:29 | a keyword is in the matched set exactly when it is a substring of the lower-cased answer |
| KeywordMatching.SplitMeetsSpec | assessment/grading_service.py:23-32 | for any keyword order, matched and missed are duplicate-free, split the keyword set into matched and not matched, and hold lower-case words |
| KeywordMatching.SplitKeywords | assessment/grading_service.py:28-32 | the loop yields, in keyword order, the matching and the missing keywords |
| KeywordMatching.MatchRatioBounds | assessment/grading_service.py:34-37 | the match ratio lies in [0, 1], and is 0.5 when there are no keywords |
| KeywordMatching.LengthFactorBounds | assessment/grading_service.py:39-41 | the length factor lies in [0, 1], is `word_count / 10` below ten words, and is 0 for a blank answer |
| KeywordMatching.ScaledByUnitFactors | assessment/grading_service.py:43 | scaling a non-negative mark by two factors in [0, 1] stays within [0, mark] |
| KeywordMatching.KeywordScoreBounds | assessment/grading_service.py:34-58 | the keyword score lies between 0 and the rounded mark |
| KeywordMatching.BlankAnswerScoresZero | assessment/grading_service.py:39-58 | a blank answer scores 0 whatever the expected answer |
| KeywordMatching.MatchRatioMonotone | assessment/grading_service.py:28-35 | an answer that contains every keyword another answer contains has at least its match ratio |
| KeywordMatching.PartsJoinIsLong | assessment/grading_service.py:86 | a non-empty feedback joins to something longer than "Answer reviewed." |
| KeywordMatching.PartsCoverage | assessment/grading_service.py:77-78 | with matched keywords, the feedback is the coverage line of the first five, or starts with it followed by `". "` |
| KeywordMatching.PartsInclude | assessment/grading_service.py:80-81 | with missed keywords, the text after the coverage part is the suggestion line of the first three, or starts with it followed by `". "` |
| KeywordMatching.PartsHint | assessment/grading_service.py:83-84 | below the minimum word count, the feedback ends with the detail hint |
| KeywordMatching.PartsWithoutHint | assessment/grading_service.py:83-84 | at or above the minimum word count, the feedback never contains the detail hint |
| KeywordMatching.PartsFeedbackFits | assessment/grading_service.py:73-86 | the text built from exactly the present parts (coverage only when something matched, suggestion only when something was missed, hint only for short answers) satisfies every clause of the feedback rules |
| KeywordMatching.GenerateFeedback | assessment/grading_service.py:73-86 | the feedback is exactly the present parts joined by `". "` (or "Answer reviewed."), so it opens with the coverage line of the first five matched keywords, the suggestion line of the first three missed ones comes next, each line ends at `". "` or at the end of the text, the hint is present exactly for short answers, and the text is "Answer reviewed." exactly when nothing applies |
| KeywordMatching.FeedbackListsAtMost | assessment/grading_service.py:76-81 | in any feedback meeting those rules, the coverage listing holds at most five keywords and the suggestion listing at most three: the listing of the first six matched, or first four missed, keywords never stands where that line belongs |
| KeywordMatching.KeywordFieldsHold | assessment/grading_service.py:23-58 | the ratio, factor and score computed from the split keyword list equal the ones defined from the keyword sets, so the details record the keyword split for any keyword order |
| KeywordMatching.GradeKeyword | assessment/grading_service.py:20-58 | the result holds the keyword split, word count, rounded ratio and factor, the rounded score, and the feedback text of exactly the present parts, which meets the feedback rules, including the five- and three-keyword limits |
| Mcq.Normalize | assessment/grading_service.py:169-170 | the normalised answer has no surrounding whitespace, no capitals, and is no longer than the input |
| Mcq.StripExact | assessment/grading_service.py:169 | whitespace around an unpadded text is exactly what `strip()` removes |
| Mcq.StripParts | assessment/grading_service.py:169 | `strip()` removes only whitespace, and only at the two ends |
| Mcq.StripLower | assessment/grading_service.py:169-170 | stripping commutes with lower-casing |
| Mcq.NormalizeIdempotent | assessment/grading_service.py:169-170 | normalising twice is normalising once |
| Mcq.NormalizeIgnoresPadding | assessment/grading_service.py:169-172 | surrounding whitespace never changes the normalised answer |
| Mcq.NormalizeIgnoresCase | assessment/grading_service.py:169-172 | letter case never changes the normalised answer |
| Mcq.GradeMcq | assessment/grading_service.py:166-184 | correct exactly when the normalised answers agree; full marks or 0; "Correct!" exactly when correct, otherwise the expected answer in the feedback; details hold the normalised forms |
| Mcq.ExpectedAnswerEarnsFullMarks | assessment/grading_service.py:166-184 | any answer equal to the expected one up to letter case, padded with whitespace, earns full marks |
| Mcq.GradeMcqInvariant | assessment/grading_service.py:166-184 | the grade depends on the student answer only through its normalised form |
| CosineSimilarity.Tokenize | assessment/grading_service.py:118-119 | every token is a non-empty lower-case letter word |
| CosineSimilarity.DocCount | assessment/grading_service.py:127 | the document frequency never exceeds the number of documents |
| CosineSimilarity.DocCountOfPair | assessment/grading_service.py:127 | in a two-document corpus, the document frequency counts the documents holding the term |
| CosineSimilarity.TfIdfVector | assessment/grading_service.py:121-134 | the vector has exactly the distinct tokens as terms |
| CosineSimilarity.IdfTable | assessment/grading_service.py:125-128 | the IDF table has one entry per distinct token, equal to `log(N / (df + 1))` |
| CosineSimilarity.ComputeTfIdf | assessment/grading_service.py:121-134 | the loops build exactly the TF-IDF vector: relative frequency times IDF for each distinct token |
| CosineSimilarity.WeightSign | assessment/grading_service.py:121-134 | over the pair of answers, a shared term has negative weight and a term in one answer only has weight 0 |
| CosineSimilarity.WeightsNonPositive | assessment/grading_service.py:121-134 | every weight over the pair of answers is at most 0 |
| CosineSimilarity.SumOfProducts | assessment/grading_service.py:142-145 | the loop computes the set sum of component products |
| CosineSimilarity.CosineOf | assessment/grading_service.py:136-150 | the similarity is 0 without terms or with a zero magnitude, and otherwise the dot product over the product of magnitudes |
| CosineSimilarity.DivideByMagnitudes | assessment/grading_service.py:144-150 | 0 when either magnitude is 0; otherwise the result times the product of the magnitudes gives back the dot product |
| CosineSimilarity.CosineOfSumsUnique | assessment/grading_service.py:144-150 | the only value meeting that contract is `CosineOfSums`, the similarity `Cosine` is defined by |
| CosineSimilarity.DotOverNonNegative | assessment/grading_service.py:142 | a sum of non-negative products is non-negative |
| CosineSimilarity.DotOverZero | assessment/grading_service.py:142 | a sum of zero products is 0 |
| CosineSimilarity.SquaresPositive | assessment/grading_service.py:144-145 | a vector with a non-zero weight has a positive sum of squares |
| CosineSimilarity.SquaresNonNegative | assessment/grading_service.py:144-145 | a sum of squares is non-negative |
| CosineSimilarity.CosineOfSumsNonNegative | assessment/grading_service.py:144-150 | non-negative sums give a non-negative similarity |
| CosineSimilarity.CosineOfSumsSelf | assessment/grading_service.py:144-150 | a non-zero vector against itself has similarity 1 |
| CosineSimilarity.CosineOfSumsZero | assessment/grading_service.py:147-148 | a zero magnitude gives similarity 0 |
| CosineSimilarity.ProductsNonNegative | assessment/grading_service.py:98-101 | each component product of the two answers' vectors is non-negative |
| CosineSimilarity.CosineNonNegative | assessment/grading_service.py:136-150 | non-negative component products give a non-negative cosine |
| CosineSimilarity.SimilarityNonNegative | assessment/grading_service.py:95-103 | the similarity of two answers is never negative, so `math.sqrt` always gets a valid argument |
| CosineSimilarity.CosineScoreNonNegative | assessment/grading_service.py:103-116 | the essay score is never negative for a non-negative mark |
| CosineSimilarity.NoSharedTermScoresZero | assessment/grading_service.py:92-116 | answers without a common token have similarity 0 and score 0 |
| CosineSimilarity.IdenticalTokensScoreFull | assessment/grading_service.py:92-116 | answers with the same non-empty token list have similarity 1 and earn the rounded full mark |
| CosineSimilarity.SimilarityFeedback | assessment/grading_service.py:152-160 | one of the four messages; the best exactly from 0.8 up, the worst exactly below 0.4 |
| CosineSimilarity.FeedbackMonotone | assessment/grading_service.py:152-160 | the feedback tier is chosen by the 0.8, 0.6 and 0.4 thresholds and never falls as similarity rises |
| CosineSimilarity.GradeCosine | assessment/grading_service.py:92-116 | score, feedback and details are those of the similarity of the two answers |
| Service.GradingService.constructor | assessment/grading_service.py:190-196 | the registry holds exactly mcq, true_false, short_answer and essay, with both objective types on exact match |
| Service.Route | assessment/grading_service.py:190-201 | mcq and true_false go to exact match, essay to cosine, and every other type to keyword matching |
| Service.GradingService.GradeAnswer | assessment/grading_service.py:198-202 | the result is what the routed grader promises for the answer |
| Service.GradingService.GradeItem | assessment/grading_service.py:210-227 | the entry carries the item's id and mark and the routed grader's result |
| Service.Percentage | assessment/grading_service.py:229 | the percentage is 0 without marks, and lies in [0, 100] when the total lies within the marks |
| Service.GradingService.GradeSubmission | assessment/grading_service.py:204-236 | one graded entry per item, in order; the totals and percentage are the rounded sums and ratio |
| Service.GradedAt | assessment/grading_service.py:209-227 | entry i of the detailed results is item i's grade |
| Service.GradedScoreNonNegative | assessment/grading_service.py:198-202 | no grader gives a negative score for a non-negative mark |
| Service.McqScoreWithinMarks | assessment/grading_service.py:173 | objective questions score either 0 or the full mark |
| Service.TotalWithinMarks | assessment/grading_service.py:218-219 | scores within their marks add up to between 0 and the total mark |
| Service.PercentageWithinRange | assessment/grading_service.py:229 | scores within their marks give a percentage in [0, 100] |
| Service.ObjectiveSubmissionPercentage | assessment/grading_service.py:204-229 | a submission of objective questions only has a percentage in [0, 100] |
| Models.IsActive | assessment/models.py:60-69 | active exactly when published and the time lies within the optional start and end bounds |
| Models.ActiveBetween | assessment/models.py:60-69 | an exam active at two moments is active at every moment between them |
| Models.ActiveWithoutBounds | assessment/models.py:60-69 | without bounds, an exam is active exactly when published |
| Models.InactiveOutsideWindow | assessment/models.py:65-68 | an exam is never active before its start or after its end |
| Models.ReachesPassMark | assessment/models.py:169-178 | the computed percentage reaches the pass mark exactly when `score * 100 >= passing_score * total_marks` |
| Models.PassMonotone | assessment/models.py:169-178 | a higher score never turns a pass into a fail |
| Models.Submission.IsPassed | assessment/models.py:174-178 | a submission without a percentage has not passed |
| Models.Submission.CalculatePercentage | assessment/models.py:169-172 | with a score and positive total mark, the percentage becomes `score / total * 100` and the pass decision is `ReachesPassMark`; otherwise nothing changes |
| Serializers.ValidateAnswers | assessment/serializers.py:91-99 | accepted, unchanged, exactly when non-empty without repeated question ids; the first failure is "At least one answer is required", the second "Duplicate question IDs found" |
| Serializers.CountMatchesIff | assessment/serializers.py:105-112 | the row count equals the answer count exactly when the ids are distinct and all belong to the exam |
| Serializers.Validate | assessment/serializers.py:101-115 | accepted, unchanged, exactly when the ids are distinct and belong to the exam; otherwise "Some questions do not belong to this exam" |
| Serializers.ValidateSubmission | assessment/serializers.py:91-115 | an answer set passes both checks exactly when it is non-empty, has no repeats, and every question belongs to the exam |

## Left out

- Floating point: scores, ratios and percentages are exact reals. `math.log`, `math.sqrt` and `round(x, d)` are uninterpreted parameters constrained only by `Lawful`. Decimal arithmetic in `calculate_percentage` is also treated as exact.
- Regular expressions and Unicode: text is treated as ASCII. Whitespace is the ASCII characters Python's `isspace()` accepts, and a word character is an ASCII letter, digit or underscore. Unicode case mapping and non-ASCII word characters are not modelled.
- CosineSimilarity.SimilarityNonNegative: only the lower bound 0 is proved. The upper bound 1, which depends on the Cauchy–Schwarz inequality, is not stated.
- KeywordMatching.KeywordScoreBounds and CosineSimilarity.CosineScoreNonNegative: no numeric score values are proved, because the rounding function is uninterpreted.
- Service.ObjectiveSubmissionPercentage: the [0, 100] bound is proved only for MCQ and true/false items. Keyword and cosine scores are bounded below, but an upper bound for essays would need the cosine bound above.
- Models.Submission.CalculatePercentage: the percentage is set on the object only. Saving it to the database is not modelled.
- `timezone.now()` and database lookups are inputs: the current time is a parameter, and the question table is a map from question id to exam id.
- `validate_exam_id` and `validate_question_id` (assessment/serializers.py:70-89) are database existence lookups and are not modelled. `validate_exam_id`'s activity check is `Models.IsActive`.
- The `rubric` argument is accepted by every grader but never read, so it is dropped.
- The `strategy` entry of the details dictionaries is a constant for each grader and is carried by the details variant, not as a string.
- Views, URLs, admin, authentication, settings and the sample-data script are not part of this model. Neither are Django field declarations, `Meta` options and `__str__`.
- Python's set iteration order: keyword order and the order of set sums are chosen nondeterministically, and every contract is independent of that order.
