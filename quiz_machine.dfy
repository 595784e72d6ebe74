/**
 * The quiz component's state as one value, and each of its state changes as a
 * function from the old state to the new one: the load at mount, the
 * synchronous part of an answer click, and the deferred callback that the click
 * schedules. The class in quiz.dfy performs these changes field by field; the
 * lemmas here say what runs of them do.
 */
module QuizMachine {
  import opened Wrappers
  import opened Questions

  /** The component's state hooks (answerOptions, never read or written, is left out). */
  datatype QuizState = QuizState(
    questions: seq<Question>,
    currentQuestion: nat,
    score: nat,
    showScore: bool,
    selectedAnswer: string,
    isCorrect: Option<bool>,
    error: Option<string>)

  /** The state at mount, and again after a page reload. */
  function Initial(): (r: QuizState)
    ensures r.questions == [] && r.currentQuestion == 0 && r.score == 0 && !r.showScore
    ensures r.selectedAnswer == "" && r.isCorrect == None && r.error == None
    ensures !InRange(r)
  {
    QuizState([], 0, 0, false, "", None, None)
  }

  /** The current question exists, so the click handler can read its answer. */
  predicate InRange(s: QuizState)
  {
    s.currentQuestion < |s.questions|
  }

  /**
   * The loader's effect: on success the questions are replaced and the error
   * cleared; on failure the message is stored and the questions are kept.
   */
  function LoadStep(s: QuizState, outcome: Result<seq<Question>, string>): (r: QuizState)
    ensures outcome.Ok? ==> r.questions == outcome.value && r.error == None
    ensures outcome.Err? ==> r.questions == s.questions && r.error == Some(outcome.error)
    ensures r.currentQuestion == s.currentQuestion && r.score == s.score && r.showScore == s.showScore
    ensures r.selectedAnswer == s.selectedAnswer && r.isCorrect == s.isCorrect
  {
    match outcome
    case Ok(qs) => s.(questions := qs, error := None)
    case Err(message) => s.(error := Some(message))
  }

  /**
   * The synchronous part of a click on `option`: the selection is recorded,
   * compared by exact string equality with the current question's answer, and
   * a match earns one point. Nothing stops a second click before the deferred
   * advance; it is scored the same way.
   */
  function SubmitStep(s: QuizState, option: string): (r: QuizState)
    requires InRange(s)
    ensures r.selectedAnswer == option
    ensures r.isCorrect == Some(option == s.questions[s.currentQuestion].answer)
    ensures option == s.questions[s.currentQuestion].answer <==> r.score == s.score + 1
    ensures option != s.questions[s.currentQuestion].answer <==> r.score == s.score
    ensures r.questions == s.questions && r.currentQuestion == s.currentQuestion
    ensures r.showScore == s.showScore && r.error == s.error
  {
    var correctAnswer := s.questions[s.currentQuestion].answer;
    var selected := s.(selectedAnswer := option);
    if option == correctAnswer then selected.(score := s.score + 1, isCorrect := Some(true))
    else selected.(isCorrect := Some(false))
  }

  /**
   * The deferred callback scheduled by a click made while question `from` was
   * shown (the callback sees the `currentQuestion` of that click). Before the
   * last question it moves on and clears the feedback; on the last one it only
   * raises `showScore`, leaving the index and the feedback as they were.
   */
  function AdvanceStep(s: QuizState, from: nat): (r: QuizState)
    ensures r.questions == s.questions && r.score == s.score && r.error == s.error
    ensures from + 1 < |s.questions| ==>
      r.currentQuestion == from + 1 && r.isCorrect == None && r.selectedAnswer == "" && r.showScore == s.showScore
    ensures from + 1 >= |s.questions| ==>
      r.showScore && r.currentQuestion == s.currentQuestion
      && r.selectedAnswer == s.selectedAnswer && r.isCorrect == s.isCorrect
    ensures InRange(s) ==> InRange(r)
  {
    var nextQuestion := from + 1;
    if nextQuestion < |s.questions| then
      s.(currentQuestion := nextQuestion, isCorrect := None, selectedAnswer := "")
    else
      s.(showScore := true)
  }

  /** What is on screen. */
  datatype View =
    | Summary(score: nat, total: nat)
    | Asking(number: nat, total: nat, text: string, options: seq<string>, feedback: Option<bool>)
    | Loading(feedback: Option<bool>)

  /**
   * The feedback line: shown while the selection is a non-empty string (an
   * empty string is falsy), reading "Correct!" exactly when `isCorrect` is true.
   */
  function Feedback(s: QuizState): (r: Option<bool>)
    ensures r.Some? <==> s.selectedAnswer != ""
    ensures r == Some(true) <==> s.selectedAnswer != "" && s.isCorrect == Some(true)
  {
    if s.selectedAnswer != "" then Some(s.isCorrect == Some(true)) else None
  }

  /** The score view, the question view, or the loading message. */
  function ViewOf(s: QuizState): (r: View)
    requires !s.showScore && s.questions != [] ==> InRange(s)
    ensures r.Summary? <==> s.showScore
    ensures r.Summary? ==> r.score == s.score && r.total == |s.questions|
    ensures r.Loading? <==> !s.showScore && s.questions == []
    ensures r.Asking? ==>
      && r.number == s.currentQuestion + 1
      && 1 <= r.number <= r.total == |s.questions|
      && r.text == s.questions[s.currentQuestion].question
      && r.options == s.questions[s.currentQuestion].options
      && r.feedback == Feedback(s)
    ensures r.Loading? ==> r.feedback == Feedback(s)
  {
    if s.showScore then Summary(s.score, |s.questions|)
    else if |s.questions| > 0 then
      var q := s.questions[s.currentQuestion];
      Asking(s.currentQuestion + 1, |s.questions|, q.question, q.options, Feedback(s))
    else Loading(Feedback(s))
  }

  /** A failed load is not shown: the screen stays on the loading message. */
  lemma FailedLoadShowsLoading(message: string)
    ensures LoadStep(Initial(), Err(message)).error == Some(message)
    ensures LoadStep(Initial(), Err(message)).questions == []
    ensures ViewOf(LoadStep(Initial(), Err(message))) == Loading(None)
  {
  }

  /**
   * Right after a click on a non-empty option, the question view marks it
   * correct exactly when it is the answer; a click on an empty option shows no
   * feedback at all.
   */
  lemma SubmitFeedback(s: QuizState, option: string)
    requires InRange(s) && !s.showScore
    ensures ViewOf(SubmitStep(s, option)).Asking?
    ensures ViewOf(SubmitStep(s, option)).feedback ==
      if option == "" then None else Some(option == s.questions[s.currentQuestion].answer)
  {
  }

  /** The two things that change the state after the load. */
  datatype Event =
    | Click(option: string)   // a click on one of the option buttons
    | TimerFired(from: nat)   // a deferred callback, with the index its click saw

  /** The option buttons are on screen: the question view is showing. */
  predicate Answerable(s: QuizState)
  {
    !s.showScore && InRange(s)
  }

  /** One event; a click lands only while the buttons are on screen. */
  function Step(s: QuizState, e: Event): (r: QuizState)
    ensures e.Click? && Answerable(s) ==> r == SubmitStep(s, e.option)
    ensures e.Click? && !Answerable(s) ==> r == s
    ensures e.TimerFired? ==> r == AdvanceStep(s, e.from)
    ensures r.questions == s.questions && s.score <= r.score <= s.score + (if e.Click? then 1 else 0)
  {
    match e
    case Click(option) => if Answerable(s) then SubmitStep(s, option) else s
    case TimerFired(from) => AdvanceStep(s, from)
  }

  /** The events in order. */
  function Run(s: QuizState, events: seq<Event>): QuizState
    decreases |events|
  {
    if events == [] then s else Run(Step(s, events[0]), events[1..])
  }

  /** The number of clicks among the events. */
  function Clicks(events: seq<Event>): nat
  {
    if events == [] then 0 else (if events[0].Click? then 1 else 0) + Clicks(events[1..])
  }

  /**
   * Whatever the order of clicks and callbacks (repeated clicks and stale
   * callbacks included), the score never decreases, gains at most one point
   * per click, the questions never change and the index stays in range.
   */
  lemma {:induction false} RunBounds(s: QuizState, events: seq<Event>)
    ensures s.score <= Run(s, events).score <= s.score + Clicks(events)
    ensures Run(s, events).questions == s.questions
    ensures InRange(s) ==> InRange(Run(s, events))
    decreases |events|
  {
    if events != [] {
      RunBounds(Step(s, events[0]), events[1..]);
    }
  }

  /**
   * A second click on the right answer before the callback fires scores again,
   * and the two callbacks it leaves both land on the same next question. On
   * the last question, after every earlier answer was right, the score view
   * then shows one point more than there are questions.
   */
  lemma DoubleClickScoresTwice(s: QuizState)
    requires Answerable(s)
    ensures var c := s.currentQuestion;
      var answer := s.questions[c].answer;
      var r := Run(s, [Click(answer), Click(answer), TimerFired(c), TimerFired(c)]);
      r.score == s.score + 2
      && r.currentQuestion == (if c + 1 < |s.questions| then c + 1 else c)
      && (c + 1 >= |s.questions| ==> r.showScore)
      && (c + 1 == |s.questions| && s.score == c ==> r.score == |s.questions| + 1)
  {
    var c := s.currentQuestion;
    var answer := s.questions[c].answer;
    var s1 := SubmitStep(s, answer);
    var s2 := SubmitStep(s1, answer);
    var s3 := AdvanceStep(s2, c);
    var s4 := AdvanceStep(s3, c);
    var events := [Click(answer), Click(answer), TimerFired(c), TimerFired(c)];
    assert Run(s4, events[4..]) == s4;
    assert Run(s3, events[3..]) == s4;
    assert Run(s2, events[2..]) == s4;
    assert Run(s1, events[1..]) == s4;
  }

  /**
   * One answer as the handler and its timer produce it when the user waits
   * for the feedback: the click, then the callback it scheduled.
   */
  function Round(s: QuizState, option: string): QuizState
    requires InRange(s)
  {
    AdvanceStep(SubmitStep(s, option), s.currentQuestion)
  }

  /** Answers given one per round, while the question view is showing. */
  function Play(s: QuizState, answers: seq<string>): QuizState
    decreases |answers|
  {
    if answers == [] || !Answerable(s) then s
    else Play(Round(s, answers[0]), answers[1..])
  }

  /**
   * The state between rounds: before the score view, at most one point per
   * question already left behind and no feedback pending; in the score view,
   * the index on the last question and at most one point per question.
   */
  predicate Settled(s: QuizState)
  {
    && InRange(s)
    && if s.showScore then s.currentQuestion == |s.questions| - 1 && s.score <= |s.questions|
       else s.score <= s.currentQuestion && s.selectedAnswer == "" && s.isCorrect == None
  }

  /** The state once a non-empty batch has loaded at mount is settled, on question one, with no points. */
  lemma LoadedIsSettled(qs: seq<Question>)
    requires qs != []
    ensures var s := LoadStep(Initial(), Ok(qs));
      Settled(s) && Answerable(s) && s.currentQuestion == 0 && s.score == 0 && s.error == None
  {
  }

  /** Rounds keep the state settled; the score never falls and grows by at most one per answer. */
  lemma {:induction false} PlayKeepsSettled(s: QuizState, answers: seq<string>)
    requires Settled(s)
    ensures Settled(Play(s, answers))
    ensures s.score <= Play(s, answers).score <= s.score + |answers|
    ensures Play(s, answers).questions == s.questions
    decreases |answers|
  {
    if answers != [] && Answerable(s) {
      PlayKeepsSettled(Round(s, answers[0]), answers[1..]);
    }
  }

  /** How many of `answers` match the answers of the questions from index `from` on. */
  function Correct(qs: seq<Question>, from: nat, answers: seq<string>): nat
    decreases |answers|
  {
    if answers == [] || from >= |qs| then 0
    else (if answers[0] == qs[from].answer then 1 else 0) + Correct(qs, from + 1, answers[1..])
  }

  /**
   * Answering every remaining question ends in the score view on the last
   * question (not one past it), with one point per matching answer added.
   */
  lemma {:induction false} PlayToTheEnd(s: QuizState, answers: seq<string>)
    requires Answerable(s)
    requires |answers| >= |s.questions| - s.currentQuestion
    ensures Play(s, answers).showScore
    ensures Play(s, answers).currentQuestion == |s.questions| - 1
    ensures Play(s, answers).score == s.score + Correct(s.questions, s.currentQuestion, answers)
    decreases |s.questions| - s.currentQuestion
  {
    var next := Round(s, answers[0]);
    if s.currentQuestion + 1 < |s.questions| {
      PlayToTheEnd(next, answers[1..]);
    } else {
      assert !Answerable(next);
      assert Play(next, answers[1..]) == next;
    }
  }

  /** Answers that all match score one point each. */
  lemma {:induction false} AllMatching(qs: seq<Question>, from: nat, answers: seq<string>)
    requires from <= |qs| && |answers| >= |qs| - from
    requires forall k :: 0 <= k < |qs| - from ==> answers[k] == qs[from + k].answer
    ensures Correct(qs, from, answers) == |qs| - from
    decreases |qs| - from
  {
    if from < |qs| {
      assert answers[0] == qs[from].answer;
      forall k | 0 <= k < |qs| - (from + 1)
        ensures answers[1..][k] == qs[from + 1 + k].answer
      {
        assert answers[k + 1] == qs[from + (k + 1)].answer;
      }
      AllMatching(qs, from + 1, answers[1..]);
    }
  }

  /**
   * A user who answers all questions of a freshly loaded batch correctly ends
   * in the score view with every point, and the index on the last question.
   */
  lemma PerfectGame(qs: seq<Question>, answers: seq<string>)
    requires qs != [] && |answers| >= |qs|
    requires forall k :: 0 <= k < |qs| ==> answers[k] == qs[k].answer
    ensures var r := Play(LoadStep(Initial(), Ok(qs)), answers);
      r.showScore && r.score == |qs| && r.currentQuestion == |qs| - 1
  {
    var s := LoadStep(Initial(), Ok(qs));
    PlayToTheEnd(s, answers);
    AllMatching(qs, 0, answers);
  }
}
