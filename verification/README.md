# Jellypaws quiz: a Dafny model of the decision logic

Jellypaws is a browser personality quiz ("What jelly are you?"). Nearly all of it is rendering and animation. The part with real decision logic is small, and this project models it:

- **Results page** (`Results`). It upper-cases each answer and counts the answers in a dictionary. It decides the four dichotomies E/I, S/N, T/F and J/P by majority. On a tie the first-listed pole wins. It joins the four picks into a personality key and looks the key up in the results table. A key with no row gets a fixed "Unknown" entry. An empty answer list shows a "no idea" page instead of a result.
- **Type quiz** (`TypeQuiz`). This is the quiz the router serves at `/quiz`. Each answer is a personality type. After the last question, `mostCommon` picks the type that occurs most often. Among equally common types, the one that occurs first wins. The page then navigates to `/result?type=<type>`.
- **Index quiz** (`IndexQuiz`). This is a second quiz page. It records every answer. It finishes once the index has reached the last question, and otherwise moves to the next question. With no current question it shows "Loading...".
- **Question card** (`QuestionCard`). It shows the prompt, with a default when the prompt is missing. It chooses the options from `answers`, then `options`, then none. Each button reports its option's value.
- **Progress bar** (`ProgressBar`). The fill percentage is rounded half up and not clamped. The question number in the label is capped at the total.
- **Scoring** (`Scoring`). It counts positional matches against an answer key and maps a score to one of four feedback messages.

`Tally` holds the occurrence count shared by the results page and `mostCommon`. `Wrappers` holds `Option`.

Where the source mutates state step by step, the model is imperative:

- The counting `forEach` is a loop method proved equal to a dictionary specification.
- The `reduce` in `mostCommon` is a loop over an insertion-ordered key list and a map. The sort is a first-maximum scan.
- The two quiz pages are classes whose methods change the index and the answers.

Everything else is functions and lemmas.

Inputs are parameters:

- The results table is a `map<string, Entry>`.
- The question bank is a `seq<Question>` (or just its length, for the type quiz).
- Navigation becomes the `Finish` value an answer returns.

## Model

| member | source | states |
|---|---|---|
| Results.CountLetters | src/pages/Results.tsx:14-18 | the counting loop leaves exactly one entry per distinct upper-cased answer, holding that answer's number of occurrences |
| Results.ComputeProfile | src/pages/Results.tsx:12-45 | the profile equals the specification `Resolve`; the key has length 4 and its k-th character is one of the two poles of the k-th dichotomy; a key without a row gets the fallback entry |
| Results.Upper | src/pages/Results.tsx:16 | upper-casing keeps the length, leaves no lower-case ASCII letter, keeps every other character and shifts each lower-case letter to its capital |
| Results.UpperIdempotent | src/pages/Results.tsx:16 | upper-casing an already upper-cased answer changes nothing |
| Results.Get | src/pages/Results.tsx:22-23 | a key in the dictionary reads as its count, and the read is zero exactly when the key is absent or its count is zero, as a read with a zero default gives |
| Results.Pick | src/pages/Results.tsx:21-26 | the pick is one of the two poles, and it is the first pole exactly when that pole's count is at least the second's (so the first pole wins ties) |
| Results.TypeKey | src/pages/Results.tsx:28-29 | the key always has four characters; Results.KeyPoles states which pole each character is |
| Results.Lookup | src/pages/Results.tsx:34-42 | a key with a row gives that row; any other key gives the fallback entry |
| Results.Render | src/pages/Results.tsx:47-57 | the "no idea" page is shown exactly when there are no answers; otherwise the page shows the resolved profile |
| Results.TalliesSnoc | src/pages/Results.tsx:15-17 | one more answer adds one to the count of its upper-cased form and changes no other count |
| Results.GetTallies | src/pages/Results.tsx:22-23 | reading a letter from the dictionary, with absent as zero, gives the letter's number of occurrences among the upper-cased answers |
| Results.KeyPoles | src/pages/Results.tsx:28-29 | the key has length 4, and character k is the pick of dichotomy k, in the order E/I, S/N, T/F, J/P |
| Results.TieLaw | src/pages/Results.tsx:24 | equal counts for a dichotomy put its first-listed pole in the key |
| Results.MajorityLaw | src/pages/Results.tsx:21-25 | a pole that strictly outnumbers its opposite is in the key, whatever the other dichotomies' counts |
| Results.KeyReadsOnlyLetters | src/pages/Results.tsx:22-29 | two dictionaries that agree on the eight letters give the same key |
| Results.SameCountsSameProfile | src/pages/Results.tsx:21-44 | two answer lists with the same counts of the eight letters resolve to the same key and entry |
| Results.CaseInsensitive | src/pages/Results.tsx:16-17 | answer lists that agree up to ASCII case resolve identically |
| Results.OtherAnswersIgnored | src/pages/Results.tsx:22-29 | inserting, anywhere, an answer whose upper-case form is not one of the eight letters does not change the profile |
| Results.UpperAllPermutation | src/pages/Results.tsx:15-16 | upper-casing a permutation of the answers gives a permutation of the upper-cased answers |
| Results.OrderIndependent | src/pages/Results.tsx:14-18 | permuting the answers does not change the profile |
| Results.FallbackLaw | src/pages/Results.tsx:34-44 | a key without a row is returned unchanged with the entry named "Unknown", summary "No summary available." and all five lists empty |
| Results.LettersAreUpper | src/pages/Results.tsx:16 | answers that are among the eight upper-case letters are unchanged by upper-casing |
| Results.LetterCounts | src/pages/Results.tsx:14-18 | for answers among the eight letters, each count in the dictionary is the letter's multiplicity |
| Results.FirstPolesKey | src/pages/Results.tsx:21-29 | when no second pole outnumbers its first, the key is "ESTJ" |
| Results.FirstPolesWin | src/pages/Results.tsx:14-29 | letter answers in which no second pole outnumbers its first resolve to "ESTJ" |
| Results.TiesGiveESTJ | src/pages/Results.tsx:24-29 | one each of E, I, S, N, T, F, J, P resolves to "ESTJ", and so does the empty list |
| Results.MajorityScenario | src/pages/Results.tsx:28-44 | E, E, S, S, T, T, J, J resolves to "ESTJ" with the table's entry for "ESTJ", or the fallback |
| Tally.Count | src/pages/Results.tsx:17 | an occurrence count is at most the length, and zero exactly when the element is absent |
| Tally.CountSnoc | src/Pages/Quiz.tsx:35 | one more element adds one to its own count and nothing to any other |
| Tally.CountConcat | src/pages/Results.tsx:15-18 | counting distributes over concatenation |
| Tally.CountIsMultiplicity | src/Pages/Quiz.tsx:34-37 | the count is the element's multiplicity in the multiset of the sequence |
| Tally.CountPermutation | src/pages/Results.tsx:15-18 | permutations have equal counts |
| TypeQuiz.Target | src/Pages/Quiz.tsx:16 | the target is `/result?type=` followed by the type, from which the type is read back unchanged |
| TypeQuiz.FirstIndex | src/Pages/Quiz.tsx:34-37 | the first occurrence holds the element and no earlier position does |
| TypeQuiz.DistinctOrder | src/Pages/Quiz.tsx:34-37 | the frequency object's keys are exactly the types that occur, each once, ordered by first occurrence; a non-empty list has at least one key |
| TypeQuiz.FirstIndexSnoc | src/Pages/Quiz.tsx:34-37 | appending does not move the first occurrence of a type already present |
| TypeQuiz.Frequencies | src/Pages/Quiz.tsx:34-37 | the reduce yields the distinct types in first-occurrence order, each mapped to its number of occurrences |
| TypeQuiz.FirstOfSorted | src/Pages/Quiz.tsx:38 | the chosen entry has a count no smaller than any entry, and every earlier entry has a strictly smaller count, so it is the entry a stable descending sort puts first |
| TypeQuiz.MostCommon | src/Pages/Quiz.tsx:33-39 | the result is absent exactly for the empty list (`mostCommon` throws); otherwise it occurs in the list, no type occurs more often, and among equally frequent types it occurs first |
| TypeQuiz.MostCommonUnique | src/Pages/Quiz.tsx:38 | at most one type meets that specification, so it determines the result |
| TypeQuiz.MostCommonSingleton | src/Pages/Quiz.tsx:33-39 | a single answer is its own most common type |
| TypeQuiz.Session.constructor | src/Pages/Quiz.tsx:8-9 | a new session is on question 0 with no answers |
| TypeQuiz.Session.Answer | src/Pages/Quiz.tsx:12-21 | on the last question, it finishes with the most common type of the answers plus this one and leaves the state unchanged; otherwise it appends the answer and increments the index; it keeps one answer per passed question |
| TypeQuiz.TakeQuiz | src/Pages/Quiz.tsx:12-21 | answering every question of a non-empty quiz in turn finishes with `/result?type=` followed by the most common answer |
| IndexQuiz.Session.constructor | src/pages/Quiz.tsx:9-10 | a new session is at index 0 with no answers |
| IndexQuiz.Session.Select | src/pages/Quiz.tsx:13-24 | every answer is appended, the last one included; at or past the last index it finishes with all answers and keeps the index; otherwise it increments the index; the index stays within the bank |
| IndexQuiz.Session.IsLast | src/pages/Quiz.tsx:17 | the page is on its last question exactly when there is no current question or the index is the last one of the bank |
| IndexQuiz.Session.Current | src/pages/Quiz.tsx:26 | there is a current question exactly when the index is inside the bank, and it is the question at the index |
| IndexQuiz.Session.View | src/pages/Quiz.tsx:26-40 | "Loading..." is shown exactly when the index is past the bank; otherwise the card shows that question's prompt and options, and the bar shows exactly the rounded percentage of the progress bar, between 0 and 100, and the number index + 1 |
| IndexQuiz.TakeQuiz | src/pages/Quiz.tsx:13-24 | answering every question of a non-empty bank in turn finishes with exactly the answers given, in order |
| QuestionCard.Prompt | src/components/QuestionCard.tsx:13 | a present prompt is shown as it is; only a missing one becomes "Untitled question" |
| QuestionCard.EmptyPromptKept | src/components/QuestionCard.tsx:13 | an empty prompt is kept, not replaced |
| QuestionCard.NormalizedOptions | src/components/QuestionCard.tsx:16-19 | the buttons are the chosen source options, one each and in order, each showing the option's text and reporting its value |
| QuestionCard.Normalize | src/components/QuestionCard.tsx:17-18 | normalising keeps length and order; each button shows its option's text and reports its option's value |
| QuestionCard.NormalizedFromSource | src/components/QuestionCard.tsx:16-19 | the buttons come from `answers` when present, even when empty, then `options`, then none |
| QuestionCard.Selected | src/components/QuestionCard.tsx:34 | clicking button k reports the value of the k-th source option, never its text |
| ProgressBar.Divisor | src/components/ProgressBar.tsx:13 | the divisor is the total when there are questions and 1 otherwise, so never zero |
| ProgressBar.Percent | src/components/ProgressBar.tsx:12-14 | the percentage is (index + 1) / divisor * 100 rounded half up: the exact value lies at most one half below the percentage and strictly less than one half above it |
| ProgressBar.Label | src/components/ProgressBar.tsx:37 | the question number is index + 1 capped at the total, so it never exceeds the total |
| ProgressBar.LastQuestionFull | src/components/ProgressBar.tsx:12-14 | on the last question of a non-empty bank the fill is exactly 100 |
| ProgressBar.PercentMonotone | src/components/ProgressBar.tsx:12-14 | for a fixed total, a later index never shows a smaller percentage |
| ProgressBar.PercentInRange | src/components/ProgressBar.tsx:12-14 | inside the bank the fill is between 0 and 100 |
| ProgressBar.OverfullPercent | src/components/ProgressBar.tsx:12-37 | the fill is not clamped: it exceeds 100 exactly when 200 (index + 1) >= 201 * divisor, while the label never exceeds the total |
| ProgressBar.EmptyBank | src/components/ProgressBar.tsx:12-37 | with no questions the division is by 1: index 0 shows 100 percent and "Question 0 / 0" |
| Scoring.CalculateScore | src/utils/scoring.ts:1-5 | the score is at most the number of answers and at most the length of the key |
| Scoring.ScoreSnoc | src/utils/scoring.ts:2-4 | appending an answer adds one exactly when it equals the key's answer at that position (never past the key's end) |
| Scoring.ScoreCountsMatches | src/utils/scoring.ts:3 | the score is the number of positions inside both lists where the answer equals the key |
| Scoring.ScorePrefixOfKey | src/utils/scoring.ts:2-4 | every prefix of the key scores its own length against the key |
| Scoring.ScoreSelf | src/utils/scoring.ts:3 | the key scores full marks against itself |
| Scoring.ScoreSymmetric | src/utils/scoring.ts:3 | swapping the answers and the key does not change the score |
| Scoring.ScoreFeedback | src/utils/scoring.ts:7-18 | with a positive total: "Perfect" exactly at 100 percent, "Great" exactly for other scores at 80 percent or more, "Good" exactly from 50 percent to below 80, "Don't worry" exactly below 50 |
| Scoring.PercentThresholds | src/utils/scoring.ts:8-13 | in exact arithmetic, `score / total * 100` equals 100 exactly when score equals total, is at least 80 exactly when 5 score >= 4 total and at least 50 exactly when 2 score >= total: the thresholds of Scoring.ScoreFeedback |
| Scoring.FeedbackMonotone | src/utils/scoring.ts:9-17 | up to full marks, a higher score never gets a lower tier |
| Scoring.OverfullScoreIsGreat | src/utils/scoring.ts:9-12 | a score above the total gets "Great job!", not "Perfect score!" |

## Left out

- Rendering, styles, animation, routing and `console.log` are not modelled. The navigation calls are the `Finish` value an answer returns, and the rendered pages are the `Page` and `Screen` values.
- The results table and the question bank come from JSON files. Neither file is part of this model, so both are parameters.
- Results.Resolve: the results page falls back to the "Unknown" entry on any nullish row value. Every row of the map here is an entry, so the fallback happens only for a missing key.
- Results.Upper: upper-casing covers ASCII only. Unicode case mappings such as dotless i are not modelled. Answers are strings, so the conversion to string is the identity.
- Results.ComputeProfile: the memoisation of the profile is not modelled. The computation is pure, so caching does not change its value.
- TypeQuiz.MostCommon: JavaScript puts integer-like object keys before all other keys. The model treats every type as an ordinary string key, kept in insertion order.
- TypeQuiz.MostCommon: types are assumed not to be names of properties inherited by a plain object (`__proto__`, `toString`, ...). For such names `mostCommon` reads the inherited member instead of a missing count, so it can throw or pick a different type. The four personality types are not such names. The results page is unaffected because it reads only the eight upper-case letters.
- TypeQuiz.FirstOfSorted: the sort itself is not modelled. The scan returns the element that a stable descending sort puts first, which is all the function uses.
- TypeQuiz.Session: the question bank enters only through its length. The on-screen text "Question n of total" and the card of that page are not modelled.
- Scoring.ScoreFeedback: the percentage is compared in exact arithmetic, not IEEE doubles. A total of zero, which gives NaN or Infinity in `getScoreFeedback`, is excluded by the precondition.
- ProgressBar.Percent: rounding is exact half-up on rationals. Floating-point error at .5 boundaries is not reproduced.
- The other source files are not part of this model: the falling-ball physics decoration, the start page animation, the home and orientation components, the result pages that only read a query parameter, and the type declarations, which serve only as datatype shapes.
