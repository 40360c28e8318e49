# Quiz board game: session model

This project models the behaviour of the single React component `App`
(`src/App.jsx`) of a browser quiz game. The component shows the questions
of a shuffled question bank one at a time. A correct answer shows the
"correct" message and, a second later, moves on to the next question. A
wrong answer shows the "wrong, start over" message and, 1.5 seconds later,
sends the player back to the first question. When the last question has
been answered correctly, an effect records the end time, and once the
index passes the last question the completion screen shows the elapsed
time in minutes and seconds.

The model has five modules:

- `Questions` (`questions.dfy`): question records and the correctness
  test of `handleAnswer`.
- `Elapsed` (`elapsed.dfy`): `getElapsedTime`, with JavaScript's
  `Math.floor` and `%` written out (the latter keeps the sign of the
  dividend). It is modelled for every duration, negative ones included.
- `Session` (`session.dfy`): the component's state cells as a value
  (`State`). Every `setTimeout` callback becomes an entry of a pending
  list, and any entry may fire next. The end-time effect keeps React's
  dependency check: it runs only when `currentIndex`, `showFeedback` or the
  list length changed since its last run. `Answered`, `Fired` and
  `RunEffect` are the transitions, `Step`/`Run` drive any sequence of
  clicks and timer firings, and `Valid` is the invariant they keep.
- `App` (`app.dfy`): the class `QuizApp`, whose fields are the state cells.
  Its methods `Answer`, `FirePending` and `RecordEnd` update them in place
  and are proved to make exactly the `Session` transitions.
- `View` (`view.dfy`) and `Play` (`play.dfy`): which screen is shown, and
  whole runs (a flawless run, a double click on the last question).

The code has no answer lock. Repeated clicks queue several callbacks, and
the model keeps that. The `Math.min` clamp of the advance is what keeps
`0 <= currentIndex <= length` (`Session.Run`). The code also does not
reshuffle the questions or restart the clock after a wrong answer, does
not cancel a timer that has become stale, and can set the end time more
than once or leave it set after a rewind. Two consequences, both proved:
- A correct click on the last question followed, before its advance
  fires, by a wrong one shows the completion screen and records the end time, and
  then the rewind sends the player back to question 1 with the end time
  still set (`Play.CorrectThenWrongOnLast`).
- Two quick correct clicks on the next-to-last question skip the last
  question and reach the completion screen without a time
  (`Play.DoubleClickSkipsLast`).

Two quirks of the code are kept:
- The first paint, before the mount effect installs the shuffled list,
  shows the completion screen (`View.FirstPaintIsCompletion`).
- `!endTime` treats a timestamp of 0 like `null` (`Elapsed.IsSet`).

## Model

| member | source | states |
|---|---|---|
| `Questions.IsCorrect` | src/App.jsx:28-31 | a submission is correct exactly when it equals the stored answer, whatever the question's `type` |
| `Questions.ExactlyOneCorrectOption` | src/App.jsx:28-31 | on a choice question whose answer is a valid index, exactly the option at that index is judged correct |
| `Questions.ExactlyOneCorrectFlag` | src/App.jsx:28-31 | on an O/X question with boolean answer c, pressing c is correct and pressing its negation is wrong |
| `Questions.MismatchedAnswerUnwinnable` | src/App.jsx:28-31 | strict equality never matches an option index against a boolean answer |
| `Elapsed.JsRem` | src/App.jsx:52 | JavaScript `%` by a positive modulus differs from the dividend by a multiple of m and lies in [0, m) for a non-negative dividend and in (-m, 0] for a negative one, which fixes it as the truncated remainder |
| `Elapsed.FloorDivIsDiv` | src/App.jsx:51-52 | `Math.floor(a / m)` for m > 0 equals integer division |
| `Elapsed.ElapsedTime` | src/App.jsx:48-54 | null exactly when `endTime` is falsy; for a non-negative duration, the minutes and seconds pin the duration to within one second, with seconds below 60 |
| `Elapsed.DurationDecomposes` | src/App.jsx:50-52 | floored minutes and floored leftover seconds of any non-negative duration satisfy the decomposition bounds |
| `Elapsed.DecompositionUnique` | src/App.jsx:50-52 | at most one minutes/seconds pair satisfies the bounds for a duration, so the read-out is the only correct one |
| `Elapsed.TwoMinutesFiveSeconds` | src/App.jsx:48-53 | 125000 ms reads 2 minutes 5 seconds |
| `Elapsed.NegativeDuration` | src/App.jsx:50-52 | a negative duration gives negative minutes and seconds between -60 and 0 |
| `Session.RunEffect` | src/App.jsx:19-25 | the effect records the current dependencies, changes nothing else, and appends the end stamp exactly when a dependency changed and the last question shows the "correct" message |
| `Session.Initial` | src/App.jsx:5-9 | the first render has no questions and nothing pending, and satisfies the invariant |
| `Session.Mounted` | src/App.jsx:13-17 | after mounting, the list is a permutation of the bank (same multiset, same length); index 0, no feedback, nothing pending, start time is the mount clock, no end time |
| `Session.WithoutRemovesOne` | src/App.jsx:35-44 | firing a timer removes exactly one occurrence of it from the pending callbacks |
| `Session.Answered` | src/App.jsx:27-46 | a click shows the verdict and moves nothing yet; it schedules exactly one advance (correct) or rewind (wrong), plus the end stamp exactly when it is a new correct answer to the last question; the invariant is kept |
| `Session.Fired` | src/App.jsx:35-44 | an advance clears feedback and moves to the next question, never past the end; a rewind clears feedback and returns to question 0; the stamp sets the end time; question order and start time never change; no timer is added |
| `Session.Step` | src/App.jsx:27-46 | any click or timer firing keeps the invariant; a click counts only while a question is up and with a value one of its buttons submits (an option index for a choice question, true or false otherwise) |
| `Session.Run` | src/App.jsx:37 | after any sequence of clicks (repeated ones included) and firings in any order, 0 <= index <= length, and the question order and start time are unchanged |
| `Session.StampOnlyAfterLastCorrect` | src/App.jsx:19-25 | a step that adds an end stamp leaves the last question current with the "correct" message showing |
| `Session.CorrectAnswerAdvances` | src/App.jsx:33-38 | correct answer then its own callback: feedback cleared, index + 1, questions, start and end time unchanged, other pending callbacks untouched |
| `Session.WrongAnswerRewinds` | src/App.jsx:39-45 | wrong answer then its own callback: feedback cleared, index 0, no reshuffle, start and end time unchanged, other pending callbacks untouched |
| `View.ScreenOf` | src/App.jsx:56-125 | the completion screen is shown exactly when index >= length, with a time exactly when the end time is set; otherwise the shown question is the list element at the index, numbered index + 1, with the red cross exactly for the wrong-answer message |
| `View.FirstPaintIsCompletion` | src/App.jsx:9 | before the mount effect, the completion screen without a time is painted |
| `View.EmptyBankStaysCompleted` | src/App.jsx:56 | with an empty bank, the completion screen is shown after any events |
| `App.QuizApp.constructor` | src/App.jsx:5-17 | mounting leaves the fields equal to `Session.Mounted`: a permutation of the bank, index 0, no feedback, no timers |
| `App.QuizApp.Answer` | src/App.jsx:27-46 | `handleAnswer` updates the fields exactly as `Session.Answered`; feedback reflects the verdict; index, list and times unchanged |
| `App.QuizApp.FirePending` | src/App.jsx:35-44 | firing a timer updates the fields exactly as `Session.Fired`; the index stays within the list |
| `App.QuizApp.RecordEnd` | src/App.jsx:19-25 | the end-time effect updates the fields exactly as `Session.RunEffect` |
| `Play.PerfectPlayCompletes` | src/App.jsx:19-38 | for a list whose every stored answer some button submits, from any settled question, correct answers to the rest plus the end stamp reach index = length with the end time recorded and nothing pending |
| `Play.PerfectRunFromMount` | src/App.jsx:13-56 | a flawless run after mounting a non-empty bank whose every stored answer some button submits ends on the completion screen showing the time from mount to the end stamp |
| `Play.DoubleClickSchedules` | src/App.jsx:19-38 | two correct clicks on the last question schedule two advances but a single end stamp |
| `Play.DoubleClickDrains` | src/App.jsx:37 | firing those three callbacks leaves the index at the length, not one past it |
| `Play.DoubleClickOnLastQuestion` | src/App.jsx:33-38 | a double click on the last question still ends on the completion screen with index = length |
| `Play.CorrectThenWrongOnLast` | src/App.jsx:19-45 | correct then wrong click on the last question, callbacks firing in their delay order: completion screen, then the end time is recorded, then index 0 with the end time still set |
| `Play.DoubleClickBeforeLastSchedules` | src/App.jsx:19-38 | two correct clicks on the next-to-last question queue two advances and no end stamp |
| `Play.DoubleClickSkipsLast` | src/App.jsx:33-38 | firing those two advances skips the last question and ends on the completion screen without a time |

## Left out

- Rendering: JSX markup, styles, the image, the option and O/X buttons, and the Korean messages. Feedback is the enum `NoFeedback | Correct | Wrong`. The read-out is a minutes/seconds pair, not the formatted string.
- `Math.random` and the comparator sort of the mount effect: the shuffled list is a parameter that must be a permutation of the bank. The distribution is not modelled.
- `Date.now()`: clock readings are integer parameters (`t0`, `now`, `t`).
- Timer delays (1000 ms, 1500 ms): any pending callback may fire next, so the model covers every firing order, the real one included.
- React batching, StrictMode's double effects and render scheduling: each click or timer firing is one atomic step, followed by one render and effect pass.
- Loading `questions.json`: the bank is an input sequence.
- The advance's captured `shuffledQuestions.length`: the model reads the current length. The list is set once, before any question can be clicked, so the two are the same.
- `App.QuizApp.Answer`: requires the question screen to be up (index below the length) and a value one of its buttons submits (lines 143-147, 167, 178), since `handleAnswer` is called only from those buttons; `Session.Step` treats any other click as an event that cannot happen.
- `Elapsed.FloorDiv`: divides exact rationals, while `Math.floor(duration / 60000)` divides IEEE doubles. The two agree for every duration below 2^53 ms in magnitude, which covers any difference of two `Date.now()` readings.
