/**
 * The quiz component itself: its state hooks as fields, and the three things
 * that write them (the loader, the answer-click handler and the callback the
 * handler schedules) as methods. Each method is specified by the state-change
 * function of QuizMachine it performs, so the lemmas proved there hold of any
 * sequence of calls.
 */
module QuizComponent {
  import opened Wrappers
  import opened Questions
  import opened QuizMachine

  class Quiz {
    var questions: seq<Question>
    var currentQuestion: nat
    var score: nat
    var showScore: bool
    var selectedAnswer: string
    var isCorrect: Option<bool>
    var error: Option<string>

    /** The fields as one value. */
    function State(): QuizState
      reads this
    {
      QuizState(questions, currentQuestion, score, showScore, selectedAnswer, isCorrect, error)
    }

    /** Mounting the component; a restart reloads the page, which mounts a new one. */
    constructor ()
      ensures State() == Initial()
      ensures questions == [] && currentQuestion == 0 && score == 0 && !showScore
      ensures selectedAnswer == "" && isCorrect == None && error == None
    {
      questions := [];
      currentQuestion := 0;
      score := 0;
      showScore := false;
      selectedAnswer := "";
      isCorrect := None;
      error := None;
    }

    /**
     * The loader, given what the request came back with: on a delivered body
     * the normalised questions are stored and the error cleared; otherwise
     * only the error message is stored.
     */
    method Load(response: Response, decode: Decoder, coins: Coins)
      modifies this
      ensures State() == LoadStep(old(State()), LoadOutcome(response, decode, coins))
      ensures response.Delivered? ==> |questions| == |response.results| && error == None
      ensures !response.Delivered? ==> questions == old(questions) && error.Some?
    {
      match response {
        case NotOk =>
          error := Some(FetchFailedMessage);
        case Threw(message) =>
          error := Some(message);
        case Delivered(results) =>
          questions := Normalise(results, decode, coins);
          error := None;
      }
    }

    /**
     * The synchronous part of the click handler. It returns the index the
     * scheduled callback will see, to be passed to Advance when it fires.
     */
    method Submit(option: string) returns (scheduled: nat)
      requires currentQuestion < |questions|
      modifies this
      ensures State() == SubmitStep(old(State()), option)
      ensures scheduled == currentQuestion == old(currentQuestion)
      ensures score == old(score) + (if option == questions[currentQuestion].answer then 1 else 0)
      ensures isCorrect == Some(option == questions[currentQuestion].answer)
    {
      var correctAnswer := questions[currentQuestion].answer;
      selectedAnswer := option;
      if option == correctAnswer {
        score := score + 1;
        isCorrect := Some(true);
      } else {
        isCorrect := Some(false);
      }
      scheduled := currentQuestion;
    }

    /** The deferred callback of a click made while question `from` was shown. */
    method Advance(from: nat)
      modifies this
      ensures State() == AdvanceStep(old(State()), from)
      ensures old(currentQuestion) < |questions| ==> currentQuestion < |questions|
    {
      var nextQuestion := from + 1;
      if nextQuestion < |questions| {
        currentQuestion := nextQuestion;
        isCorrect := None;
        selectedAnswer := "";
      } else {
        showScore := true;
      }
    }

    /** A click followed, once its feedback has been shown, by the callback it scheduled. */
    method AnswerAndWait(option: string)
      requires currentQuestion < |questions|
      modifies this
      ensures State() == Round(old(State()), option)
    {
      var scheduled := Submit(option);
      Advance(scheduled);
    }
  }
}
