/**
 One game session: the React state of App.tsx as an immutable record, and
 each event handler as a pure transition on it.
 */
module Session {
  import opened Wrappers
  import opened Ladder
  import opened Types
  import Elimination
  import Audience

  /**
   The timed continuations of a confirmed answer still waiting to run. The
   reveal step keeps the answer, question and ladder position that were
   current when the answer was confirmed, as its closure does.
   */
  datatype Timer =
    | Idle
    | RevealDue(answer: string, question: Question, at: nat)
    | AdvanceDue

  datatype Session = Session(
    state: GameState,
    questions: seq<Question>,
    index: nat,
    selected: Option<string>,
    lifelines: LifelineState,
    score: int,
    finalScore: int,
    audienceVotes: seq<AudienceVote>,
    aiHint: string,
    loadingHint: bool,
    disabled: seq<string>,
    showConfirm: bool,
    timer: Timer)

  /** The session as the app starts. */
  const Initial: Session :=
    Session(InitialState, [], 0, None, NoLifelinesUsed, 0, 0, [], "", false, [], false, Idle)

  /** The question on the current rung, if the fetch returned that many. */
  function Current(s: Session): Option<Question>
  {
    if s.index < |s.questions| then Some(s.questions[s.index]) else None
  }

  /** JavaScript truthiness of the selection: null and "" both mean none. */
  predicate HasSelection(s: Session)
  {
    s.selected.Some? && s.selected.value != ""
  }

  /** Clear every per-game field and return to the welcome screen. */
  function Reset(s: Session): (r: Session)
    ensures r == Initial.(questions := s.questions, audienceVotes := s.audienceVotes,
                          aiHint := s.aiHint, loadingHint := s.loadingHint, timer := s.timer)
  {
    s.(lifelines := NoLifelinesUsed, selected := None, disabled := [], index := 0,
       score := 0, finalScore := 0, showConfirm := false, state := Welcome)
  }

  /** Start (or restart) a game: reset, then wait for the question service. */
  function StartGame(s: Session): (r: Session)
    ensures r == Initial.(state := LoadingQuestions, questions := s.questions, audienceVotes := s.audienceVotes,
                          aiHint := s.aiHint, loadingHint := s.loadingHint, timer := s.timer)
  {
    Reset(s).(state := LoadingQuestions)
  }

  /** Prize of the question on position i: the ladder's value, or 0 past the ladder. */
  function QuestionValue(i: nat): nat
  {
    if i < TotalQuestions then PrizeLevels[i] else 0
  }

  function PriceQuestions(fetched: seq<Question>): seq<Question>
  {
    seq(|fetched|, i requires 0 <= i < |fetched| => fetched[i].(value := QuestionValue(i)))
  }

  /**
   The question service answered: `fetched` is None when the call failed.
   A non-empty batch starts play; anything else goes back to the welcome
   screen, leaving the questions of any earlier game in place.
   */
  function FinishLoading(s: Session, fetched: Option<seq<Question>>): (r: Session)
    ensures fetched.Some? && |fetched.value| > 0 ==>
              && r.state == QuestionAsking
              && |r.questions| == |fetched.value|
              && (forall i :: 0 <= i < |r.questions| && i < TotalQuestions ==> r.questions[i].value == PrizeLevels[i])
              && (forall i :: TotalQuestions <= i < |r.questions| ==> r.questions[i].value == 0)
              && (forall i :: 0 <= i < |r.questions| ==> r.questions[i].(value := fetched.value[i].value) == fetched.value[i])
              && r == s.(questions := r.questions, state := QuestionAsking)
    ensures fetched.None? || fetched.value == [] ==> r == s.(state := Welcome)
  {
    if fetched.Some? && |fetched.value| > 0 then
      s.(questions := PriceQuestions(fetched.value), state := QuestionAsking)
    else
      s.(state := Welcome)
  }

  /** Record the clicked option as the selection; only while a question is being asked. */
  function SelectAnswer(s: Session, option: string): (r: Session)
    ensures s.state == QuestionAsking ==> r.selected == Some(option) && r.showConfirm
    ensures s.state == QuestionAsking ==> r == s.(selected := r.selected, showConfirm := true)
    ensures s.state != QuestionAsking ==> r == s
  {
    if s.state == QuestionAsking then s.(selected := Some(option), showConfirm := true) else s
  }

  /**
   Lock in the selection: hide the confirm button, start revealing, and
   schedule the reveal with the current answer, question and position.
   */
  function ConfirmAnswer(s: Session): (r: Session)
    ensures !HasSelection(s) || Current(s).None? ==> r == s
    ensures HasSelection(s) && Current(s).Some? ==>
              && r.state == RevealingAnswer
              && !r.showConfirm
              && r.timer == RevealDue(s.selected.value, s.questions[s.index], s.index)
              && r == s.(state := RevealingAnswer, showConfirm := false, timer := r.timer)
  {
    if !HasSelection(s) || Current(s).None? then s
    else s.(showConfirm := false, state := RevealingAnswer,
            timer := RevealDue(s.selected.value, Current(s).value, s.index))
  }

  /**
   The reveal delay elapsed. A correct answer banks the rung's prize and
   either wins the game on the last rung or schedules the next question; a
   wrong one ends the game with the guaranteed payout.
   */
  function Resolve(s: Session): (r: Session)
    requires s.timer.RevealDue? ==> s.timer.at < TotalQuestions
    ensures !s.timer.RevealDue? ==> r == s
    ensures s.timer.RevealDue? ==>
              && r.index == s.index && r.questions == s.questions
              && r.lifelines == s.lifelines && r.selected == s.selected && r.disabled == s.disabled
    ensures s.timer.RevealDue? && s.timer.answer == s.timer.question.correctAnswer ==>
              && r.score == PrizeLevels[s.timer.at]
              && (s.timer.at == TotalQuestions - 1 ==>
                    r.state == GameWon && r.finalScore == 1000000 && r.timer == Idle)
              && (s.timer.at < TotalQuestions - 1 ==>
                    r.state == s.state && r.finalScore == s.finalScore && r.timer == AdvanceDue)
    ensures s.timer.RevealDue? && s.timer.answer != s.timer.question.correctAnswer ==>
              && r.state == GameOver && r.timer == Idle && r.score == s.score
              && (s.timer.at <= 4 ==> r.finalScore == 0)
              && (5 <= s.timer.at <= 9 ==> r.finalScore == 1000)
              && (10 <= s.timer.at ==> r.finalScore == 32000)
    ensures s.timer.RevealDue? ==>
              r == s.(score := r.score, finalScore := r.finalScore, state := r.state, timer := r.timer)
  {
    match s.timer
    case RevealDue(answer, question, at) =>
      if answer == question.correctAnswer then
        var newScore := PrizeLevels[at];
        if at == TotalQuestions - 1 then
          s.(score := newScore, finalScore := newScore, state := GameWon, timer := Idle)
        else
          s.(score := newScore, timer := AdvanceDue)
      else
        s.(finalScore := WrongAnswerPayout(at), state := GameOver, timer := Idle)
    case _ => s
  }

  /** The delay after a correct answer elapsed: move one rung up and ask the next question. */
  function Advance(s: Session): (r: Session)
    ensures !s.timer.AdvanceDue? ==> r == s
    ensures s.timer.AdvanceDue? ==>
              && r.index == s.index + 1
              && r.selected == None && r.disabled == []
              && r.state == QuestionAsking && r.timer == Idle
              && r.score == s.score && r.lifelines == s.lifelines && r.questions == s.questions
    ensures s.timer.AdvanceDue? ==>
              r == s.(index := s.index + 1, selected := None, disabled := [], state := QuestionAsking, timer := Idle)
  {
    if s.timer.AdvanceDue? then
      s.(index := s.index + 1, selected := None, disabled := [], state := QuestionAsking, timer := Idle)
    else s
  }

  /** A lifeline may run: there is a question, it is being asked, and the lifeline is unused. */
  predicate LifelineOpen(s: Session, used: bool)
  {
    Current(s).Some? && !used && s.state == QuestionAsking
  }

  /** 50:50: mark it used and disable the options Elimination.Eliminate picks. */
  function UseFiftyFifty(s: Session, pick: nat): (r: Session)
    requires Current(s).Some? ==> Elimination.ValidPick(Current(s).value, pick)
    ensures !LifelineOpen(s, s.lifelines.fiftyFifty) ==> r == s
    ensures LifelineOpen(s, s.lifelines.fiftyFifty) ==>
              && r.lifelines == s.lifelines.(fiftyFifty := true)
              && r.disabled == Elimination.Eliminate(s.questions[s.index], pick)
              && r == s.(lifelines := r.lifelines, disabled := r.disabled)
    ensures LifelineOpen(s, s.lifelines.fiftyFifty) && WellFormedQuestion(s.questions[s.index]) ==>
              && |r.disabled| == 2
              && s.questions[s.index].correctAnswer !in r.disabled
              && forall o :: o in r.disabled ==> o in s.questions[s.index].options
  {
    if !LifelineOpen(s, s.lifelines.fiftyFifty) then s
    else
      var q := Current(s).value;
      var r := s.(lifelines := s.lifelines.(fiftyFifty := true), disabled := Elimination.Eliminate(q, pick));
      if WellFormedQuestion(q) then
        Elimination.FiftyFiftyDisablesTwo(q, pick);
        r
      else r
  }

  /** Ask the audience: mark it used, open the chart and fill it with a simulated poll. */
  function UseAskAudience(s: Session, bases: seq<int>, bonuses: seq<int>): (r: Session)
    requires Current(s).Some? ==> Audience.ValidDraws(Current(s).value.options, bases, bonuses)
    ensures !LifelineOpen(s, s.lifelines.askAudience) ==> r == s
    ensures LifelineOpen(s, s.lifelines.askAudience) ==>
              && r.lifelines == s.lifelines.(askAudience := true)
              && r.state == UsingLifelineAudience
              && r == s.(lifelines := r.lifelines, state := r.state, audienceVotes := r.audienceVotes)
              && r.audienceVotes == Audience.SimulateAudience(Current(s).value.options, Current(s).value.correctAnswer,
                                                              bases, bonuses)
    ensures LifelineOpen(s, s.lifelines.askAudience) && WellFormedQuestion(s.questions[s.index]) ==>
              && |r.audienceVotes| == 4
              && multiset(Audience.OptionsOf(r.audienceVotes)) == multiset(s.questions[s.index].options)
              && Audience.SumPct(r.audienceVotes) == 100
              && Audience.SharesIn(r.audienceVotes, 0, 100)
  {
    if !LifelineOpen(s, s.lifelines.askAudience) then s
    else
      var q := Current(s).value;
      var r := s.(lifelines := s.lifelines.(askAudience := true), state := UsingLifelineAudience,
                  audienceVotes := Audience.SimulateAudience(q.options, q.correctAnswer, bases, bonuses));
      if |q.options| <= 14 then
        Audience.AudienceSharesArePercentages(q.options, q.correctAnswer, bases, bonuses);
        r
      else r
  }

  /** Ask the AI: mark it used, open the hint panel and wait for the hint service. */
  function UseAskAI(s: Session): (r: Session)
    ensures !LifelineOpen(s, s.lifelines.askAI) ==> r == s
    ensures LifelineOpen(s, s.lifelines.askAI) ==>
              && r.lifelines == s.lifelines.(askAI := true)
              && r.state == UsingLifelineAIHint
              && r.loadingHint
              && r == s.(lifelines := r.lifelines, state := r.state, loadingHint := true)
  {
    if !LifelineOpen(s, s.lifelines.askAI) then s
    else s.(lifelines := s.lifelines.(askAI := true), state := UsingLifelineAIHint, loadingHint := true)
  }

  /** Walk away: keep the prize already banked, not the next rung's. */
  function WalkAway(s: Session): (r: Session)
    ensures s.state != QuestionAsking && s.state != AnswerSelected ==> r == s
    ensures s.state == QuestionAsking || s.state == AnswerSelected ==>
              && r.state == GameOver
              && r.finalScore == s.score
              && r == s.(state := GameOver, finalScore := s.score)
  {
    if s.state != QuestionAsking && s.state != AnswerSelected then s
    else s.(finalScore := s.score, state := GameOver)
  }

  /** Dismiss the audience chart. */
  function CloseAudience(s: Session): (r: Session)
    ensures s.state == UsingLifelineAudience ==> r == s.(state := QuestionAsking)
    ensures s.state != UsingLifelineAudience ==> r == s
  {
    if s.state == UsingLifelineAudience then s.(state := QuestionAsking) else s
  }

  /** Dismiss the hint panel. */
  function CloseHint(s: Session): (r: Session)
    ensures s.state == UsingLifelineAIHint ==> r == s.(state := QuestionAsking)
    ensures s.state != UsingLifelineAIHint ==> r == s
  {
    if s.state == UsingLifelineAIHint then s.(state := QuestionAsking) else s
  }
}
