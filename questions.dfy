/**
 * The question loader of the quiz component: how the trivia provider's records
 * become the component's questions, and what the one request made at mount
 * leaves behind (a question list or an error message).
 *
 * HTML-entity decoding is done by a foreign library; every operation here takes
 * the decoder as a parameter and assumes nothing about it. The option shuffle is
 * a sort whose comparator ignores its arguments and answers at random; it is
 * modelled as an insertion sort whose comparator verdicts are a parameter, so
 * every statement below holds for every outcome of the random draws.
 */
module Questions {
  import opened Wrappers

  /** One record of the provider's `results`; its texts are still HTML-entity encoded. */
  datatype RawQuestion = RawQuestion(question: string, correctAnswer: string, incorrectAnswers: seq<string>)

  /** A question as the component keeps it: decoded text, shuffled options, decoded answer. */
  datatype Question = Question(question: string, options: seq<string>, answer: string)

  /** The HTML-entity decoder, left uninterpreted. */
  type Decoder = string -> string

  /**
   * The random comparator's verdicts while one option list is sorted:
   * `coin(i, j)` is true when comparing element `i` of the input with the
   * element now at position `j` of the already-sorted prefix answered
   * "greater than zero", which moves element `i` in front of it.
   */
  type Coin = (nat, nat) -> bool

  /** The verdicts for a whole batch: `coins(k, i, j)` is `coin(i, j)` for question `k`. */
  type Coins = (nat, nat, nat) -> bool

  /**
   * Inserts element `i` of the input, `x`, into the sorted prefix, scanning
   * from its end and moving left while the comparator says so.
   */
  function Insert(x: string, sorted: seq<string>, i: nat, coin: Coin): (r: seq<string>)
    ensures |r| == |sorted| + 1
    ensures multiset(r) == multiset(sorted) + multiset{x}
    decreases |sorted|
  {
    if sorted == [] then [x]
    else
      var last := |sorted| - 1;
      if coin(i, last) then
        assert sorted == sorted[..last] + [sorted[last]];
        Insert(x, sorted[..last], i, coin) + [sorted[last]]
      else
        sorted + [x]
  }

  /** `s.sort(() => Math.random() - 0.5)`: a permutation of `s`, whichever way the coins fall. */
  function RandomSort(s: seq<string>, coin: Coin): (r: seq<string>)
    ensures |r| == |s|
    ensures multiset(r) == multiset(s)
    decreases |s|
  {
    if s == [] then []
    else
      var n := |s| - 1;
      assert s == s[..n] + [s[n]];
      Insert(s[n], RandomSort(s[..n], coin), n, coin)
  }

  /** `xs.map(a => he.decode(a))`. */
  function DecodeAll(xs: seq<string>, decode: Decoder): (r: seq<string>)
    ensures |r| == |xs|
    ensures forall k :: 0 <= k < |xs| ==> r[k] == decode(xs[k])
  {
    seq(|xs|, k requires 0 <= k < |xs| => decode(xs[k]))
  }

  /**
   * One record becomes one question: its text decoded, its options the decoded
   * incorrect answers followed by the decoded correct answer, shuffled, and its
   * answer the decoded correct answer.
   */
  function NormaliseQuestion(q: RawQuestion, decode: Decoder, coin: Coin): (r: Question)
    ensures r.question == decode(q.question)
    ensures r.answer == decode(q.correctAnswer)
    ensures multiset(r.options) == multiset(DecodeAll(q.incorrectAnswers, decode) + [r.answer])
    ensures |r.options| == |q.incorrectAnswers| + 1
    ensures r.answer in r.options
  {
    var answer := decode(q.correctAnswer);
    var options := RandomSort(DecodeAll(q.incorrectAnswers, decode) + [answer], coin);
    assert answer in multiset(options);
    Question(decode(q.question), options, answer)
  }

  /** `data.results.map(...)`: one question per record, in the provider's order. */
  function Normalise(results: seq<RawQuestion>, decode: Decoder, coins: Coins): (r: seq<Question>)
    ensures |r| == |results|
    ensures forall k :: 0 <= k < |results| ==>
      && r[k].question == decode(results[k].question)
      && r[k].answer == decode(results[k].correctAnswer)
      && multiset(r[k].options) == multiset(DecodeAll(results[k].incorrectAnswers, decode) + [r[k].answer])
      && r[k].answer in r[k].options
  {
    seq(|results|, k requires 0 <= k < |results| =>
      NormaliseQuestion(results[k], decode, (i: nat, j: nat) => coins(k, i, j)))
  }

  /** What the request at mount can come back with. */
  datatype Response =
    | NotOk                                // the response arrived with `response.ok` false
    | Threw(message: string)               // the request, the JSON parse or the mapping threw
    | Delivered(results: seq<RawQuestion>) // the parsed body's `results`

  /** The message of the error thrown for a response that is not ok. */
  const FetchFailedMessage: string := "Failed to fetch questions"

  /**
   * The `try`/`catch` of the loader: the normalised questions when the body
   * arrived, otherwise the message of what was thrown.
   */
  function LoadOutcome(response: Response, decode: Decoder, coins: Coins): (r: Result<seq<Question>, string>)
    ensures r.Ok? <==> response.Delivered?
    ensures response.NotOk? ==> r == Err(FetchFailedMessage)
    ensures response.Threw? ==> r == Err(response.message)
    ensures response.Delivered? ==> |r.value| == |response.results|
    ensures response.Delivered? ==> r == Ok(Normalise(response.results, decode, coins))
    ensures response.Delivered? ==> forall k :: 0 <= k < |r.value| ==>
      && r.value[k].question == decode(response.results[k].question)
      && r.value[k].answer == decode(response.results[k].correctAnswer)
      && multiset(r.value[k].options)
         == multiset(DecodeAll(response.results[k].incorrectAnswers, decode) + [r.value[k].answer])
      && r.value[k].answer in r.value[k].options
  {
    match response
    case NotOk => Err(FetchFailedMessage)
    case Threw(message) => Err(message)
    case Delivered(results) => Ok(Normalise(results, decode, coins))
  }
}
