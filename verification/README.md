# Quiz app core in Dafny

This project models the logic inside the single React component `src/App.jsx` of a
client-side aptitude and code-output quiz. It covers four parts:

- **Pool selection** (`Pool`): the `pool` memo keeps the aptitude questions, and the
  code questions when they are mixed in. It shuffles them with an in-place
  Fisher–Yates pass and keeps a prefix of the requested length.
  - `Math.random()` is injected as a sequence of swap indices, `choices[i]` in `[0, i]`.
  - `Draw` shows how one such index comes from a draw in `[0, 1)`.
  - `slice(0, min(quizLength, n))` keeps JavaScript's meaning for a negative end,
    because the length input is not clamped.
- **Scoring** (`Scoring`): `scoreResult` walks the pool and counts each question as
  correct, wrong or skipped.
  - JavaScript truthiness, `||`, `String(v)` and `trim` are written out in `JsValues`.
  - So a question whose `answer` is falsy falls back to `expected_output`.
  - When both are missing, the code compares the answer with the text `"null"`.
  - An empty answer counts as skipped.
- **The countdown** (`Clock`):
  - The state updater passed to `setTimeLeft` by the interval callback.
  - `formatTime`, with `Math.floor` for the minutes and JavaScript's truncating `%`
    for the seconds, each padded to two characters.
- **The session** (`Session.QuizSession`): the component's state fields as a class.
  Each button handler is a method. The three screens are the phases `InSetup`,
  `InAttempt` and `InResult`. `Valid` keeps four things true:
  - the pool is always the memo's value for the current configuration;
  - the index stays on a pooled question during an attempt;
  - a started session always has a countdown;
  - only a started session is finished.

  Starting an attempt does not draw the pool again. Only loading the bank or changing
  the length or the code checkbox does, and only when the value actually changes.

Three behaviours of the code are kept as written:

- A question with neither `answer` nor `expected_output` is scored correct for the
  answer `"null"` (`Scoring.NullCanonicalMatches`).
- Back and Retake do not give a clean attempt:
  - Back keeps the answers, the index and the countdown.
  - Retake keeps the index and the explanation toggle.
- Starting does not draw the pool again. The memo runs again only when `questions`,
  `quizLength` or `mixCode` changes.

The line that sets a missing countdown when the timer starts (`src/App.jsx:54`) never
applies in the model. `StartQuiz` and `Retake` always set the countdown, and `Valid`
keeps it set while the session is started.

## Model

| member | source | states |
|---|---|---|
| Pool.Eligible | src/App.jsx:41-43 | the filter predicate; no contract of its own, `FilterKeepsEligible` states what the filter keeps with it |
| Pool.Select | src/App.jsx:39-49 | the memo as a function; no contract of its own (it sits inside the session invariant), its meaning is in `SelectDrawsFromEligible`, `SelectLength`, `SelectIsPrefix` and `SelectCoversEligible`, and `SelectPool` computes it |
| JsValues.Truthy | src/App.jsx:99-100 | JavaScript truthiness of the modelled values; no contract, `JudgeMeaning` states what it decides in scoring |
| JsValues.Or | src/App.jsx:99 | `a \|\| b`; no contract, `CorrectText` states the canonical text it leads to |
| JsValues.ToStr | src/App.jsx:99-101 | `String(v)`; no contract, its numeric case is `IntToString`, whose contract gives the digits |
| JsValues.Trim | src/App.jsx:99-101 | `trim()`; no contract, `TrimDropsOnlyTrimmable` and `TrimIdempotent` state its meaning |
| Scoring.CanonicalText | src/App.jsx:99 | the reference text an answer must equal; no contract, `CorrectText` proves the code's `String(correct).trim()` equals it |
| Scoring.Lookup | src/App.jsx:98 | `picked[q.id]`: the recorded answer or `undefined`; no contract, `JudgeMeaning` states how it is judged (inherited object members are under Left out) |
| Scoring.Judge | src/App.jsx:98-102 | one step of the loop in the code's terms; no contract, `JudgeMeaning` states when it is skipped, correct or wrong |
| Clock.RunTicks | src/App.jsx:56-63 | k successive updater calls; no contract, `CountdownEndsOnce` and `FirstTickEndsShortLimit` state where they lead |
| Clock.FormatTime | src/App.jsx:69-74 | `formatTime`; no contract, `FormatTimeFields`, `ClockRoundTrip` and `NegativeDisplay` state it |
| Session.QuizSession.Valid | src/App.jsx:9-17 | the invariant every handler keeps: the pool is the memo's value, the index stays in the pool while started, a started session has a countdown, only a started session is finished |
| Pool.Filter | src/App.jsx:41-43 | the filtered list is no longer than the bank |
| Pool.FilterKeepsEligible | src/App.jsx:41-43 | every kept question is aptitude, or code when code is mixed in; each eligible question is kept exactly as often as the bank holds it, and every other question is dropped |
| Pool.Draw | src/App.jsx:45 | `Math.floor(u * (i + 1))` for a draw `u` in [0, 1) is a swap partner in [0, i] |
| Pool.ChoicesOf | src/App.jsx:44-45 | the indices drawn from one random number per position always satisfy `ChoicesFit` |
| Pool.Swap | src/App.jsx:46 | the destructuring swap exchanges positions i and j and leaves every other position alone |
| Pool.ShuffledIsPermutation | src/App.jsx:44-47 | for every admissible choice sequence the Fisher–Yates pass keeps the length and the multiset of the list |
| Pool.Shuffle | src/App.jsx:44-47 | the in-place loop leaves the array equal to `Shuffled` of its old contents, a permutation of them |
| Pool.SliceEnd | src/App.jsx:48 | `slice`'s end index: clamped to the length when non-negative, counted from the back when negative |
| Pool.SelectPool | src/App.jsx:39-49 | the memo's filter, in-place shuffle and slice give exactly `Select` of the bank, the length, the checkbox and the choices |
| Pool.SelectDrawsFromEligible | src/App.jsx:40-43 | the pool holds only eligible questions of the bank, no more copies than the filtered bank, and is empty for an empty bank |
| Pool.SelectLength | src/App.jsx:48 | the pool length is `min(quizLength, eligible count)` for a non-negative length; a negative length drops that many from the back |
| Pool.SelectIsPrefix | src/App.jsx:44-48 | the pool is a prefix of the shuffled eligible questions |
| Pool.SelectCoversEligible | src/App.jsx:44-48 | a length covering all eligible questions gives a permutation of all of them |
| JsValues.NatToString | src/App.jsx:73 | `String(n)` is a non-empty digit string that denotes n, with no leading zero |
| JsValues.IntToString | src/App.jsx:73 | `String(i)` is the digits of i, preceded by "-" for a negative i |
| JsValues.PadStart | src/App.jsx:73 | `padStart` reaches the width, ends with the original string and fills the front with the pad character |
| JsValues.PadZeros | src/App.jsx:73 | zero-padding a digit string keeps its value |
| JsValues.TrimStart | src/App.jsx:101 | drops exactly the leading trimmable characters |
| JsValues.TrimEnd | src/App.jsx:101 | drops exactly the trailing trimmable characters |
| JsValues.TrimDropsOnlyTrimmable | src/App.jsx:101 | `trim()` is an infix of the string reached by dropping only whitespace and line terminators, and does not start or end with one |
| JsValues.TrimIdempotent | src/App.jsx:99-101 | trimming the already trimmed canonical text changes nothing |
| Scoring.CorrectText | src/App.jsx:99-101 | the code's `String(correct).trim()` is the canonical text: the trimmed `answer`, else the trimmed `expected_output`, else "null" |
| Scoring.JudgeMeaning | src/App.jsx:98-102 | a question is skipped iff no answer or an empty one is recorded, and correct iff a non-empty answer's trimmed text equals the canonical text |
| Scoring.NullCanonicalMatches | src/App.jsx:99-101 | with both fields missing, the answer "null" is scored correct |
| Scoring.TallyBy | src/App.jsx:94-105 | total is the pool length and correct + wrong + skipped equals total |
| Scoring.Tally | src/App.jsx:94-105 | the score of a pool under recorded answers: total is the pool length and the three counts add up to it |
| Scoring.ScoreResult | src/App.jsx:94-105 | the counting loop returns `Tally` of the pool and the answers |
| Scoring.NothingPickedAllSkipped | src/App.jsx:98-100 | with no answers recorded every question is skipped |
| Scoring.AllMatchingAllCorrect | src/App.jsx:99-101 | when every question holds a non-empty matching answer, all are correct |
| Scoring.TallyAppend | src/App.jsx:96-103 | the counts of two pools laid end to end are the sums of their counts |
| Scoring.TallyOrderFree | src/App.jsx:96-103 | the counts depend only on the multiset of pooled questions, not their order |
| Scoring.ScoreIgnoresShuffle | src/App.jsx:39-49 | when the length covers all eligible questions, the score does not depend on the shuffle's random choices |
| Clock.Tick | src/App.jsx:56-63 | null stays null; at one second or less the count lands on 0 and the attempt finishes; otherwise one second goes by |
| Clock.CountdownEndsOnce | src/App.jsx:56-63 | from n ≥ 1 seconds, the first n - 1 ticks count down without finishing and tick n reaches 0 and finishes, once |
| Clock.FirstTickEndsShortLimit | src/App.jsx:58-61 | a start value of one second or less finishes on the first tick |
| Clock.FloorDiv | src/App.jsx:71 | `Math.floor(a / b)` is the q with q·b ≤ a < q·b + b |
| Clock.JsRem | src/App.jsx:72 | `a % b` satisfies a = b·trunc(a / b) + r, with r of the sign of a and smaller than b in size |
| Clock.FieldDigits | src/App.jsx:73 | a padded field of a non-negative number is at least two digits denoting it, and exactly two below 100 |
| Clock.FormatTimeFields | src/App.jsx:69-74 | for sec ≥ 0 the display is digits of sec / 60, " : ", and exactly two digits of sec % 60 |
| Clock.ClockRoundTrip | src/App.jsx:69-74 | the display of a non-negative countdown parses back to the same number of seconds |
| Clock.NegativeDisplay | src/App.jsx:71-73 | a negative count shows floored minutes and truncated seconds: -61 reads "-2 : -1" |
| Session.Record | src/App.jsx:86 | `{ ...p, [qid]: value }` has the old keys plus qid, maps qid to value and keeps every other entry |
| Session.RecordLastWins | src/App.jsx:85-87 | answering the same question twice keeps only the later answer |
| Session.RecordCommutes | src/App.jsx:85-87 | answers to different questions can be recorded in either order |
| Session.QuizSession.constructor | src/App.jsx:4-17 | the initial state: empty bank, 30 questions, code mixed in, 30 minutes, index 0, no answers, not started, no countdown |
| Session.QuizSession.LoadQuestions | src/App.jsx:28 | the bank is replaced and the pool drawn from it; the attempt fields are unchanged |
| Session.QuizSession.SetQuizLength | src/App.jsx:121 | a new length draws the pool again; the same length keeps the pool and its order |
| Session.QuizSession.SetMixCode | src/App.jsx:130 | a changed checkbox draws the pool again; the same value keeps it |
| Session.QuizSession.SetTimeLimit | src/App.jsx:125 | only the time limit changes; the pool stays |
| Session.QuizSession.StartQuiz | src/App.jsx:76-83 | no answers, index 0, not finished, explanations hidden, started, countdown = limit × 60; the pool is not drawn again |
| Session.QuizSession.SelectAnswer | src/App.jsx:85-87 | the answers become `Record(old answers, qid, value)` and nothing else changes |
| Session.QuizSession.SubmitQuiz | src/App.jsx:89-92 | offered only at the last question (the `else` of line 245); finished and explanations shown, nothing else changes |
| Session.QuizSession.Prev | src/App.jsx:244 | one question back, and no change at index 0 |
| Session.QuizSession.Next | src/App.jsx:245-246 | offered only while a later question exists; one question on, staying inside the pool |
| Session.QuizSession.ToggleExplain | src/App.jsx:250 | flips the explanation toggle only |
| Session.QuizSession.Back | src/App.jsx:170 | back to setup, not finished; answers, index and countdown kept |
| Session.QuizSession.Retake | src/App.jsx:171 | answers cleared, not finished, started, fresh countdown; the index and the toggle are kept |
| Session.QuizSession.Exit | src/App.jsx:272 | back to setup with no answers and index 0; finished flag and countdown kept |
| Session.QuizSession.ClearAnswers | src/App.jsx:273 | no answers and index 0, still in the attempt |
| Session.QuizSession.TimerTick | src/App.jsx:56-63 | the countdown follows `Tick`, never goes below 0, and finishes the attempt exactly when it was at one second or less |
| Session.QuizSession.Result | src/App.jsx:162-163 | the result screen's score is `Tally` of the pool and the answers, with total equal to the pool size |

## Left out

- The loader (`src/App.jsx:20-36`): `fetch`, JSON parsing, the `data.questions || data` normalisation and the `loading`/`error` flags are I/O. `LoadQuestions` takes the decoded bank as a parameter.
- The `setInterval`/`clearInterval` scheduling in the timer effect (`src/App.jsx:52-67`) is React effect machinery. `TimerTick` is one call of the updater while an attempt runs.
- The shuffle's uniformity is a probabilistic claim about `Math.random`. The model takes the swap indices as an input and proves what holds for every choice of them.
- Numbers are integers. `Number(e.target.value)` giving `NaN` or a fraction, and floating-point question values, are not modelled.
- `JsValue` has no arrays or objects, and `ToStr` has no exponent form or precision limit for numbers. So `String([1,2])`, the truthy `"[object Object]"` of an object `answer`, and `String` of numbers from 1e21 up are not modelled.
- Scoring.Lookup: `picked` is a plain object in the code, so an id naming an `Object.prototype` member ("constructor", "toString") reads a truthy inherited function and is scored wrong. `Lookup` treats the map as holding only recorded answers and scores such a question skipped.
- Question fields that only the view reads (`topic`, `question`, `code`, `options`, `explanation`) are not modelled.
- Rendering is not modelled: the review list with its own `""` fallback (`src/App.jsx:181-191`), the "Answered" counter (`src/App.jsx:252`) and the rest of the JSX.
- The clipboard report (`src/App.jsx:172`) is a browser API.
- The `min`/`max` attributes of the number inputs are not enforced by the code, so the model does not clamp the length or the time limit.
- The attempt view with an empty pool would read `q.id` of `undefined` (`src/App.jsx:203-204`). The attempt's handlers therefore require a non-empty pool (`InAttempt`).
- Session.QuizSession.Result: the sum identity of the counts is stated on `Scoring.Tally`, not repeated in the method's contract.
