# Trivia quiz component, modelled in Dafny

This project models the `Quiz` React component of a browser trivia quiz
(`src/Quiz.js`). At mount the component requests a batch of multiple-choice
questions from a trivia provider. It turns each record into a question with
decoded text, shuffled options and the decoded correct answer, then shows the
questions one at a time. A click on an option records the selection, scores
it and shows feedback. A callback deferred by one second then moves to the
next question, or to the score view after the last one.

The model has four modules:

- `Wrappers` (`wrappers.dfy`): `Option` (a value or JavaScript's `null`) and `Result`.
- `Questions` (`questions.dfy`): the pure part of the loader.
  - Raw provider records become questions (`NormaliseQuestion`, `Normalise`).
  - The random shuffle of the options (`Insert`, `RandomSort`).
  - The `try`/`catch` outcome of the request (`LoadOutcome`).
  - The HTML-entity decoder is a parameter `decode: string -> string`. Nothing is assumed about it.
  - The shuffle is `sort` with a comparator that ignores its arguments and answers at random. It is modelled as an insertion sort whose comparator verdicts are a parameter `coin(i, j)`. Every property is proved for every coin, so it holds for whatever the random draws are.
- `QuizMachine` (`quiz_machine.dfy`): the component's state hooks as one value `QuizState`, with each state change as a function.
  - `LoadStep` is the loader's effect. `SubmitStep` is the synchronous part of the click handler. `AdvanceStep` is the deferred callback. `ViewOf` picks the screen.
  - Event runs (`Run`) allow any interleaving of clicks and callbacks. Rounds (`Play`) are a click followed by its own callback. The lemmas state what such runs do.
- `QuizComponent` (`quiz.dfy`): the class `Quiz`. Its fields are the state hooks. Its methods `Load`, `Submit` and `Advance` update them field by field. Each method is specified by the `QuizMachine` function it performs.

The callback of `setTimeout` closes over the `currentQuestion` of the click
that scheduled it. So `Submit` returns that index, and `Advance(from)` takes
it.

Behaviour of the code worth knowing, which the model keeps:

- On the last question the deferred callback raises `showScore` and leaves `currentQuestion` at `|questions| - 1`. It does not reach `|questions|`. On that question it also keeps the selection and the correctness flag (`AdvanceStep`, `PlayToTheEnd`).
- Nothing guards against a second click before the callback fires. The second click on the right answer scores again, and on the last question the score view can then show more points than there are questions (`DoubleClickScoresTwice`). So the score is bounded by the number of clicks (`RunBounds`), not by the question index.
- During feedback and in the score view, the score may be `currentQuestion + 1`. Between rounds it is at most `currentQuestion` (`Settled`).
- The number of options is one more than the number of incorrect answers the provider sends. The code does not check how many there are.
- A failed load stores its message but nothing renders it. The screen stays on the loading message (`FailedLoadShowsLoading`).
- Feedback appears only while the selection is a non-empty string. A click on an option whose decoded text is empty shows none (`SubmitFeedback`).

## Model

| member | source | states |
|---|---|---|
| Questions.Insert | src/Quiz.js:26 | inserting one element into the sorted prefix, whatever the comparator answers, adds exactly that element: the result is one longer and its multiset is the prefix's plus that element |
| Questions.RandomSort | src/Quiz.js:26 | sorting with the random comparator yields a permutation of the input (same length, same multiset) for every outcome of the random draws |
| Questions.NormaliseQuestion | src/Quiz.js:24-28 | a record's question text and answer are the decoded texts; its options are a permutation of the decoded incorrect answers followed by the decoded correct answer, one more than the incorrect answers, and contain the answer |
| Questions.Normalise | src/Quiz.js:24-28 | one question per record, in order, each with decoded text, decoded answer, options a permutation of the decoded answers, and the answer among its options |
| Questions.DecodeAll | src/Quiz.js:26 | the decoded incorrect answers: one per answer, in order, each the decoder applied to that answer |
| Questions.LoadOutcome | src/Quiz.js:17-35 | the request succeeds exactly when a body was delivered, and then yields exactly the normalised list: one question per record with decoded text, decoded answer, options a permutation of the decoded answers, and the answer among them; a response that is not ok fails with "Failed to fetch questions"; a thrown exception fails with its own message |
| QuizMachine.LoadStep | src/Quiz.js:29-34 | success replaces the questions and clears the error; failure stores the message and keeps the questions; no other state changes |
| QuizMachine.SubmitStep | src/Quiz.js:41-50 | needs the current question to exist; records the option; the score rises by exactly one if and only if the option equals the answer, and otherwise stays; the correctness flag is that comparison; questions, index, showScore and error are unchanged |
| QuizMachine.AdvanceStep | src/Quiz.js:52-61 | before the last question: the index becomes the click's index plus one and the selection and flag are reset; on the last: showScore is raised and index, selection and flag are kept; the score and questions never change; an in-range index stays in range |
| QuizMachine.Initial | src/Quiz.js:5-12 | the mount state: no questions, index 0, score 0, no score view, empty selection, null flag and null error; no question is current yet |
| QuizMachine.Feedback | src/Quiz.js:103-107 | the feedback line is shown exactly when the selection is a non-empty string, and reads "Correct!" exactly when the flag is also true |
| QuizMachine.ViewOf | src/Quiz.js:68-107 | the score view exactly when showScore holds, showing the score out of the question count; the loading message exactly when no questions are loaded and showScore is off; otherwise the question view numbered currentQuestion + 1, showing that question's text and options; both non-score views carry the feedback line |
| QuizMachine.FailedLoadShowsLoading | src/Quiz.js:33-34 | a failed load at mount stores the message, leaves the questions empty, and the screen still shows the loading message |
| QuizMachine.SubmitFeedback | src/Quiz.js:103-107 | after a click the question view shows feedback exactly when the option is non-empty, and it says "correct" exactly when the option is the answer |
| QuizMachine.Step | src/Quiz.js:41-61 | a click performs the handler only while the option buttons are rendered (question view showing, lines 68 and 89-93) and otherwise changes nothing; a callback performs the deferred advance; the questions never change and the score rises by at most one, only on a click |
| QuizMachine.RunBounds | src/Quiz.js:41-61 | for any interleaving of clicks and callbacks, the score never decreases, rises by at most one per click, the questions do not change, and an in-range index stays in range |
| QuizMachine.DoubleClickScoresTwice | src/Quiz.js:41-61 | two clicks on the answer before the callback both score, and their two callbacks land on the same next question; on the last question the run ends in the score view, with one point more than there are questions when every earlier answer was right |
| QuizMachine.LoadedIsSettled | src/Quiz.js:5-12 | from the mount state, a non-empty successful load gives question one, a score of zero, no pending feedback and no error |
| QuizMachine.PlayKeepsSettled | src/Quiz.js:41-61 | rounds of click-then-callback keep the index in range and the score at most the index between rounds (at most the question count in the score view); the score never falls and rises by at most one per round |
| QuizMachine.PlayToTheEnd | src/Quiz.js:52-60 | answering every remaining question ends in the score view with the index on the last question, and adds one point per answer matching its question |
| QuizMachine.AllMatching | src/Quiz.js:44-45 | when each answer matches its question, every remaining question counts as correctly answered |
| QuizMachine.PerfectGame | src/Quiz.js:41-61 | answering every question of a freshly loaded batch correctly ends in the score view with a full score and the index on the last question |
| QuizComponent.Quiz.constructor | src/Quiz.js:5-12 | the mount state: no questions, index 0, score 0, no score view, empty selection, null flag and null error |
| QuizComponent.Quiz.Load | src/Quiz.js:16-35 | performs LoadStep on the request's outcome: a delivered body stores one question per record and clears the error; otherwise an error is stored and the questions are kept |
| QuizComponent.Quiz.Submit | src/Quiz.js:41-50 | performs SubmitStep; the score rises by one exactly for the answer; returns the index the scheduled callback sees |
| QuizComponent.Quiz.Advance | src/Quiz.js:52-61 | performs AdvanceStep for the index its click saw; an in-range index stays in range |
| QuizComponent.Quiz.AnswerAndWait | src/Quiz.js:41-61 | a click followed by the callback it scheduled performs one Round |

## Left out

- The request itself, `response.json()` and the console logging (src/Quiz.js:18, 22-23, 30) are I/O. `Load` receives what the request came back with as a `Response`.
- The HTML-entity decoder's behaviour (src/Quiz.js:25-27) belongs to a foreign library. It is a parameter with no assumed properties, so the idempotence of decoding is not modelled.
- The randomness of the shuffle is left out: the properties hold for every outcome, and nothing about uniformity is stated. The engine's sort algorithm is implementation-defined; the model uses insertion sort.
- The one-second delay and the event loop's timer ordering (src/Quiz.js:52-61) are not modelled. A callback is an explicit `Advance` call or `TimerFired` event, in any order the caller chooses.
- The mount effect's lifecycle (src/Quiz.js:14-39) is not modelled, and neither are the markup, styling and button colours (src/Quiz.js:64-112). `ViewOf` keeps only which screen shows and what it shows.
- The restart button reloads the page (src/Quiz.js:73). That is a browser call; the model only re-creates the mount state (`Quiz.constructor`, `Initial`).
- The `answerOptions` state hook (src/Quiz.js:6) is never read or written after its declaration.
- Stale updates after teardown and batched React state updates are not modelled. Each click is assumed to see the state left by the previous event.
