/** The game's record and enumeration types (types.ts). */
module Types {
  import opened Wrappers

  /**
   A quiz question as the question service returns it. Nothing at the type
   level ties `options` to `correctAnswer`; see WellFormedQuestion.
   */
  datatype Question = Question(
    id: string,
    question: string,
    options: seq<string>,
    correctAnswer: string,
    topic: string,
    value: int)

  /** The nine screens/phases of a game. */
  datatype GameState =
    | Welcome
    | LoadingQuestions
    | QuestionAsking
    | AnswerSelected
    | RevealingAnswer
    | GameOver
    | GameWon
    | UsingLifelineAudience
    | UsingLifelineAIHint

  /** The state a fresh session starts in. */
  const InitialState: GameState := Welcome

  /** The numeric value the enumeration gives each state (declaration order from 0). */
  function Ordinal(g: GameState): (n: nat)
    ensures n < 9
  {
    match g
    case Welcome => 0
    case LoadingQuestions => 1
    case QuestionAsking => 2
    case AnswerSelected => 3
    case RevealingAnswer => 4
    case GameOver => 5
    case GameWon => 6
    case UsingLifelineAudience => 7
    case UsingLifelineAIHint => 8
  }

  /** The state with a given numeric value, if any. */
  function FromOrdinal(n: int): Option<GameState>
  {
    if n == 0 then Some(Welcome)
    else if n == 1 then Some(LoadingQuestions)
    else if n == 2 then Some(QuestionAsking)
    else if n == 3 then Some(AnswerSelected)
    else if n == 4 then Some(RevealingAnswer)
    else if n == 5 then Some(GameOver)
    else if n == 6 then Some(GameWon)
    else if n == 7 then Some(UsingLifelineAudience)
    else if n == 8 then Some(UsingLifelineAIHint)
    else None
  }

  /** Ordinal is a bijection between the states and 0..8: there are exactly nine states. */
  lemma ExactlyNineStates()
    ensures forall g :: FromOrdinal(Ordinal(g)) == Some(g)
    ensures forall n :: FromOrdinal(n).Some? <==> 0 <= n < 9
    ensures forall n :: FromOrdinal(n).Some? ==> Ordinal(FromOrdinal(n).value) == n
    ensures Ordinal(InitialState) == 0
  {
  }

  /** Lifeline usage: each flag is true once its lifeline has been used. */
  datatype LifelineState = LifelineState(fiftyFifty: bool, askAudience: bool, askAI: bool)

  const NoLifelinesUsed: LifelineState := LifelineState(false, false, false)

  /** One bar of the audience chart: an option and its share in percent. */
  datatype AudienceVote = AudienceVote(option: string, percentage: int)

  predicate Distinct(s: seq<string>)
  {
    forall i, j :: 0 <= i < j < |s| ==> s[i] != s[j]
  }

  /** What every generated question is expected to satisfy: 4 distinct options, one of them correct. */
  predicate WellFormedQuestion(q: Question)
  {
    && |q.options| == 4
    && Distinct(q.options)
    && q.correctAnswer in q.options
  }
}
