# Quiz engine model

A Dafny model of the browser quiz of `assets/quizzes`. A user picks one of five
subjects, answers ten multiple-choice questions, moves freely back and forth
between them, and submits. The page then shows the score and its percentage
and appends an attempt record to a per-subject history kept in the browser's
storage.

Three modules:

- `Wrappers` (`wrappers.dfy`): `Option`, which stands for JavaScript's `null`.
- `QuizData` (`quiz_data.dfy`): the static bank `quizData` as the constant
  `Bank: map<string, Subject>`, its well-formedness predicate `WellFormedBank`
  and lemmas about its shape. Question prompts and option texts are reduced
  to the number of options (`Question(optionCount, correctAnswer)`). Subject
  titles are kept.
- `QuizApp` (`quiz_app.dfy`): the page's session state as the class `Quiz`.
  It holds `currentSubject`, `currentIndex`, the answer array `answers` and
  `stored`, which is the browser's `quizAttempts` item (`None` while the item
  does not exist). There is one method per command. Around the class sit the
  pure parts: scoring (`Score`), the rounded percentage (`Percentage`),
  `formatTime` (`FormatTime`, with `ToDecimal` and `PadStart` for
  `toString` and `padStart`), navigation (`NextIndex`, `PrevIndex`), the
  button state of the question screen (`Buttons`) and the history update
  (`AppendAttempt`). The file ends with five sessions driven through the
  commands, each proving a concrete scenario.

The methods are proved against the pure functions. For example,
`Quiz.CalculateScore` returns `Score(answers[..], Questions())`, and
`Quiz.SubmitQuiz` stores exactly `AppendAttempt(old history, subject, record)`.
The lemmas then say what those functions mean: score bounds, the count of
correct positions, round trips, and append-only growth.

Edge cases modelled as the code behaves:

- `startQuiz` with a subject the bank does not have. `app.js` writes
  `currentSubject` and `currentQuestionIndex` and only then fails on
  `quizData[subject].questions` (`app.js:53-55`). `Quiz.StartQuiz` returns
  `found == false` with exactly those two variables written and the answers
  untouched. It does not raise a "not found" error that leaves the state alone.
- `selectOption` stores the index before it looks up the option's element
  (`app.js:108`, `app.js:115`). `Quiz.SelectOption` always writes and reports
  through `inRange` whether that element exists.
- The history is never created or repaired on a failed read. A missing item
  is created empty only by `initializeQuizData`. An empty string counts as
  missing there too (`app.js:32`), so it is reset to `{}` the same way. An
  item whose text is not a JSON object is not modelled (see "Left out").
- Rounding is half up, as `Math.round` does. Every subject has ten
  questions, so in the bank itself the exact percentage is always a whole
  number and no tie arises (`PercentageOfTen`).

## Model

| member | source | states |
|---|---|---|
| QuizData.BankSubjects | assets/quizzes/quiz-data.js:1-527 | the bank's keys are exactly dsa, python, ai, dbms and cn, with their five titles |
| QuizData.TenQuestionsEach | assets/quizzes/quiz-data.js:1-527 | every subject has exactly 10 questions |
| QuizData.FourOptionsEach | assets/quizzes/quiz-data.js:1-527 | every question has exactly 4 options and a correct answer below 4 |
| QuizData.BankWellFormed | assets/quizzes/quiz-data.js:1-527 | every subject is non-empty, and every question has at least 2 options and a correct index among them |
| QuizData.FirstDsaAnswer | assets/quizzes/quiz-data.js:5-14 | the first dsa question has 4 options and correct answer 1 |
| QuizApp.MatchesIsOfferedOption | assets/quizzes/app.js:137-138 | an unanswered slot (`null`) never scores, and a scoring answer on a well-formed question is one of its offered options |
| QuizApp.Score | assets/quizzes/app.js:135-143 | the score of a session never exceeds its number of questions |
| QuizApp.ScoreCountsCorrectPositions | assets/quizzes/app.js:135-143 | the score equals the number of positions whose answer equals that question's correct answer |
| QuizApp.ScoreZeroIff | assets/quizzes/app.js:135-143 | the score is 0 exactly when no answer matches; null never matches |
| QuizApp.ScorePerfectIff | assets/quizzes/app.js:135-143 | the score equals the question count exactly when every answer matches |
| QuizApp.ScoreAllUnanswered | assets/quizzes/app.js:135-143 | an all-null answer list scores 0 |
| QuizApp.ScoreAfterUpdate | assets/quizzes/app.js:135-143 | overwriting one answer changes the score only by that position's old and new contribution |
| QuizApp.Percentage | assets/quizzes/app.js:154 | the percentage is 100·score/total rounded to the nearest integer with halves up; it lies in [0,100] and is 0 for score 0 and 100 for a perfect score |
| QuizApp.PercentageIsNearest | assets/quizzes/app.js:154 | that rounding rule has exactly one answer, so the shown and the stored percentage (same formula) agree |
| QuizApp.PercentageOfTen | assets/quizzes/app.js:152-154 | with ten questions the percentage is exactly 10·score, so no rounding tie can occur |
| QuizApp.ToDecimal | assets/quizzes/app.js:41 | `toString` of a whole number gives at least one decimal digit |
| QuizApp.ParseToDecimal | assets/quizzes/app.js:41 | reading the decimal string back gives the number |
| QuizApp.ToDecimalCanonical | assets/quizzes/app.js:41 | `toString` has no leading zero: the first digit is '0' exactly for 0, and the string is one digit long exactly below 10 |
| QuizApp.PadStart | assets/quizzes/app.js:41 | `padStart` reaches the width, keeps the string at the end and fills only the front |
| QuizApp.ParsePadded | assets/quizzes/app.js:41 | zero padding keeps the digits and their value |
| QuizApp.FormatTimeFields | assets/quizzes/app.js:38-42 | `formatTime(s)` is at least 5 characters with the colon third from the end; a minutes field longer than 2 digits does not start with '0' |
| QuizApp.FormatTimeRoundTrip | assets/quizzes/app.js:38-42 | both fields of `formatTime(s)` are all digits; the seconds field reads back below 60, and minutes·60 + seconds == s |
| QuizApp.FormatTimeLength | assets/quizzes/app.js:38-42 | below 6000 seconds (100 minutes) the rendered time is exactly 5 characters, `mm:ss` |
| QuizApp.NextIndex | assets/quizzes/app.js:119-124 | a step forward keeps an in-range index in range, moves by at most one, and for an in-range index stays put exactly on the last question (so it advances everywhere else) |
| QuizApp.PrevIndex | assets/quizzes/app.js:127-132 | a step back moves by at most one and stays put exactly at index 0 |
| QuizApp.NavigationInverse | assets/quizzes/app.js:119-132 | a step forward then back (or back then forward) returns to the same question when the first step moves |
| QuizApp.Buttons | assets/quizzes/app.js:95-103 | previous is disabled iff a step back would not move; for an in-range index, next is disabled iff a step forward would not move; submit is shown iff next is disabled |
| QuizApp.AttemptsFor | assets/quizzes/app.js:191-201 | a subject's attempt list is empty exactly when it has no entry or an empty one, the two cases in which the results screen shows "No previous attempts" |
| QuizApp.AppendAttempt | assets/quizzes/app.js:172-187 | saving adds the subject key if absent, puts exactly one record at the end of that subject's list, and leaves every other list unchanged; every old list is a prefix of its new one |
| QuizApp.AppendAllAccumulates | assets/quizzes/app.js:172-187 | after N saves for a subject its list has grown by exactly those N records in order; other subjects' lists are unchanged |
| QuizApp.ReloadKeepsHistory | assets/quizzes/app.js:30-35 | initialisation is idempotent: initialising an already initialised history changes nothing |
| QuizApp.Quiz.constructor | assets/quizzes/app.js:22-24 | page load starts with subject "", index 0, no answers and no quiz in progress, then initialises the history |
| QuizApp.Quiz.InitializeQuizData | assets/quizzes/app.js:30-35 | an absent history item becomes the empty map; an existing one is left untouched |
| QuizApp.Quiz.StartQuiz | assets/quizzes/app.js:52-55 | sets subject and index 0; for a bank subject, a fresh all-null answer array of the question count; otherwise reports not found with the answers untouched; the history is unchanged |
| QuizApp.Quiz.SelectOption | assets/quizzes/app.js:107-116 | the current slot becomes the chosen index, every other slot, the index and the subject are unchanged (last write wins); reports whether the option exists |
| QuizApp.Quiz.NextQuestion | assets/quizzes/app.js:119-124 | the index advances only below the last question, otherwise it does not change; the answers are untouched |
| QuizApp.Quiz.PrevQuestion | assets/quizzes/app.js:127-132 | the index goes back only above 0, otherwise it does not change; the answers are untouched |
| QuizApp.Quiz.CalculateScore | assets/quizzes/app.js:135-143 | the loop's count equals `Score` of the answers against the subject's questions, at most the question count |
| QuizApp.Quiz.SaveAttempt | assets/quizzes/app.js:172-188 | the stored history becomes `AppendAttempt` of the old one with the record (date, score, total, percentage, formatted time) |
| QuizApp.Quiz.SubmitQuiz | assets/quizzes/app.js:146-169 | returns the score, total and percentage shown, and saves one record carrying exactly those figures |
| QuizApp.FirstAnswerOnlySession | assets/quizzes/app.js:146-161 | on dsa, answering only question 1 with option 1 and submitting gives score 1, 10 percent, and one added record |
| QuizApp.UnansweredSession | assets/quizzes/app.js:146-161 | starting any bank subject and submitting at once gives score 0 and 0 percent, and one added record |
| QuizApp.ChangedAnswerSession | assets/quizzes/app.js:107-108 | choosing one option and then another leaves only the second one scored |
| QuizApp.ReloadAfterSubmit | assets/quizzes/app.js:30-35 | a page loaded after a submission starts with exactly the history the submission saved, which extends the subject's earlier list by one record |
| QuizApp.UnknownSubjectSession | assets/quizzes/app.js:52-55 | starting an unknown subject starts no quiz and leaves the history unchanged |

## Left out

- Rendering: the DOM lookups, screen visibility toggling, option elements,
  the question counter text and the `innerHTML` history list
  (`displayQuestion`, `displayAttemptHistory`). They are presentation only.
  The navigation button state is kept as the pure function `Buttons`. The
  history lookup behind the list is kept as `AttemptsFor`.
- Event listener wiring. The listeners are modelled as direct method calls.
  Retry is `StartQuiz(currentSubject)`. The home button only hides screens
  and stops the timer.
- The `setInterval` timer, `Date.now()` and `updateTimer`: the whole elapsed
  seconds are a parameter of `SubmitQuiz`.
- FormatTime: does not model negative elapsed time. A clock set back can make
  `Date.now() - startTime` negative (`app.js:46`), and `app.js:39-41` then
  renders -5 seconds as "-1:-5". The model's `elapsedSeconds: nat` and
  `FormatTime(seconds: nat)` leave that case out. `toLocaleString()` is locale
  dependent, so the date is an opaque string parameter.
- `localStorage` and `JSON.parse`/`JSON.stringify`: the storage item is the
  in-memory field `stored`. A failure to read or write it is not modelled.
- A stored item that is not a JSON object is not modelled. Text that is not
  valid JSON makes `JSON.parse` throw. `null` makes `saveAttempt` throw at
  `app.js:175`. An array such as `[]` loses the new record silently, because
  `JSON.stringify` drops the added key (`app.js:187`). The model's `stored`
  holds a map (a JSON object) or nothing.
- Percentage: does not model the floating-point evaluation of
  `Math.round((score / total) * 100)`. It is the exact rational value
  rounded half up, computed as `(200·score + total) / (2·total)`. They agree
  whenever floating point does not move a value across a half.
- Question prompts and option texts: only the option count of each question
  and its correct index are kept.
- `windows/runner/flutter_window.cpp` is not part of this model. It is a
  native window host with keyboard hooks and holds no quiz logic.
