/**
 The game as a state machine over user and timer events. Each event is
 offered only where the rendered screen offers it (which buttons exist and
 are enabled in App.tsx's JSX), then handed to its handler in Session.
 */
module Machine {
  import opened Wrappers
  import opened Ladder
  import opened Types
  import opened Session
  import Elimination
  import Audience

  datatype Event =
    | StartPressed
    | QuestionsFetched(fetched: Option<seq<Question>>)
    | OptionClicked(option: string)
    | ConfirmPressed
    | RevealElapsed
    | AdvanceElapsed
    | FiftyFiftyPressed(pick: nat)
    | AskAudiencePressed(bases: seq<int>, bonuses: seq<int>)
    | AskAIPressed
    | WalkAwayPressed
    | AudienceClosed
    | HintClosed

  /** What holds of every session reachable from Initial. */
  predicate Inv(s: Session)
  {
    && s.index < TotalQuestions
    && (s.state == RevealingAnswer <==> !s.timer.Idle?)
    && (s.timer.RevealDue? ==> s.timer.at == s.index)
    && (s.timer.AdvanceDue? ==> s.index < TotalQuestions - 1)
  }

  /** The event's random draws fit the question they would apply to. */
  predicate Admissible(s: Session, e: Event)
  {
    match e
    case FiftyFiftyPressed(pick) =>
      Current(s).Some? ==> Elimination.ValidPick(Current(s).value, pick)
    case AskAudiencePressed(bases, bonuses) =>
      Current(s).Some? ==> Audience.ValidDraws(Current(s).value.options, bases, bonuses)
    case _ => true
  }

  /** The welcome, game-over and game-won screens: only "start" is offered. */
  predicate OnStartScreen(s: Session)
  {
    s.state == Welcome || s.state == GameOver || s.state == GameWon
  }

  /** The question screen is shown: not a start screen, and there is a current question. */
  predicate OnQuestionScreen(s: Session)
  {
    !OnStartScreen(s) && Current(s).Some?
  }

  /** An option button is on screen and not disabled. */
  predicate OptionEnabled(s: Session, option: string)
  {
    && OnQuestionScreen(s)
    && option in s.questions[s.index].options
    && s.state != RevealingAnswer
    && option !in s.disabled
    && !(s.state == AnswerSelected && s.selected.Some? && s.selected != Some(option))
  }

  /** The confirm button is on screen. */
  predicate ConfirmShown(s: Session)
  {
    s.showConfirm && s.state == QuestionAsking && HasSelection(s)
  }

  function Next(s: Session, e: Event): Session
    requires Inv(s)
    requires Admissible(s, e)
  {
    match e
    case StartPressed => if OnStartScreen(s) then StartGame(s) else s
    case QuestionsFetched(fetched) => if s.state == LoadingQuestions then FinishLoading(s, fetched) else s
    case OptionClicked(option) => if OptionEnabled(s, option) then SelectAnswer(s, option) else s
    case ConfirmPressed => if ConfirmShown(s) then ConfirmAnswer(s) else s
    case RevealElapsed => Resolve(s)
    case AdvanceElapsed => Advance(s)
    case FiftyFiftyPressed(pick) => UseFiftyFifty(s, pick)
    case AskAudiencePressed(bases, bonuses) => UseAskAudience(s, bases, bonuses)
    case AskAIPressed => UseAskAI(s)
    case WalkAwayPressed => if OnQuestionScreen(s) then WalkAway(s) else s
    case AudienceClosed => CloseAudience(s)
    case HintClosed => CloseHint(s)
  }

  /**
   Every event keeps the invariant: in particular the ladder position never
   passes the last rung, and a pending reveal or advance exists exactly
   while the answer is being revealed.
   */
  lemma NextPreservesInv(s: Session, e: Event)
    requires Inv(s)
    requires Admissible(s, e)
    ensures Inv(Next(s, e))
  {
  }

  /** The session after a sequence of events. */
  function Run(s: Session, events: seq<Event>): (r: Session)
    requires Inv(s)
    ensures Inv(r)
    ensures r.state == AnswerSelected ==> s.state == AnswerSelected
    decreases |events|
  {
    if events == [] then s
    else
      var prev := Run(s, events[..|events| - 1]);
      var e := events[|events| - 1];
      if Admissible(prev, e) then
        NextPreservesInv(prev, e);
        NothingEntersAnswerSelected(prev, e);
        Next(prev, e)
      else prev
  }

  /** No event leads into AnswerSelected, so no run from the initial session reaches it. */
  lemma NothingEntersAnswerSelected(s: Session, e: Event)
    requires Inv(s)
    requires Admissible(s, e)
    ensures Next(s, e).state == AnswerSelected ==> s.state == AnswerSelected
  {
  }

  /** Every session reachable from the initial one keeps the invariant and never sits in AnswerSelected. */
  lemma Reachable(events: seq<Event>)
    ensures Inv(Run(Initial, events))
    ensures Run(Initial, events).index <= TotalQuestions - 1
    ensures Run(Initial, events).state != AnswerSelected
  {
  }

  /**
   Within a game (any event but a restart) lifelines are never given back;
   pressing a used lifeline changes nothing; each lifeline sets only its own flag.
   */
  lemma LifelinesUsedOnce(s: Session, e: Event)
    requires Inv(s)
    requires Admissible(s, e)
    ensures e != StartPressed ==>
              && (s.lifelines.fiftyFifty ==> Next(s, e).lifelines.fiftyFifty)
              && (s.lifelines.askAudience ==> Next(s, e).lifelines.askAudience)
              && (s.lifelines.askAI ==> Next(s, e).lifelines.askAI)
    ensures e.FiftyFiftyPressed? && s.lifelines.fiftyFifty ==> Next(s, e) == s
    ensures e.AskAudiencePressed? && s.lifelines.askAudience ==> Next(s, e) == s
    ensures e == AskAIPressed && s.lifelines.askAI ==> Next(s, e) == s
    ensures e.FiftyFiftyPressed? ==>
              Next(s, e).lifelines.askAudience == s.lifelines.askAudience
              && Next(s, e).lifelines.askAI == s.lifelines.askAI
    ensures e.AskAudiencePressed? ==>
              Next(s, e).lifelines.fiftyFifty == s.lifelines.fiftyFifty
              && Next(s, e).lifelines.askAI == s.lifelines.askAI
    ensures e == AskAIPressed ==>
              Next(s, e).lifelines.fiftyFifty == s.lifelines.fiftyFifty
              && Next(s, e).lifelines.askAudience == s.lifelines.askAudience
  {
  }

  /** Within a game the ladder position only moves up, one rung at a time, and only after a correct answer. */
  lemma LadderPositionMonotone(s: Session, e: Event)
    requires Inv(s)
    requires Admissible(s, e)
    ensures e != StartPressed ==> s.index <= Next(s, e).index <= s.index + 1
    ensures Next(s, e).index == s.index + 1 ==> e == AdvanceElapsed && s.timer == AdvanceDue
  {
  }

  /** Confirming is offered only while a question is being asked; elsewhere it changes nothing. */
  lemma ConfirmOnlyWhileAsking(s: Session)
    requires Inv(s)
    ensures s.state != QuestionAsking ==> Next(s, ConfirmPressed) == s
    ensures !HasSelection(s) ==> Next(s, ConfirmPressed) == s
  {
  }

  /**
   After the last fetched question (when the service returned fewer than
   the ladder's 15), no control is on screen: every event is ignored.
   */
  lemma ExhaustedQuestionsIsDeadEnd(s: Session, e: Event)
    requires Inv(s)
    requires Admissible(s, e)
    requires s.state == QuestionAsking && Current(s).None?
    ensures Next(s, e) == s
  {
  }

  /** Click the option, confirm it, and let both timers run. */
  function Answer(s: Session, option: string): (r: Session)
    requires Inv(s)
    ensures Inv(r)
  {
    NextPreservesInv(s, OptionClicked(option));
    var s1 := Next(s, OptionClicked(option));
    NextPreservesInv(s1, ConfirmPressed);
    var s2 := Next(s1, ConfirmPressed);
    NextPreservesInv(s2, RevealElapsed);
    var s3 := Next(s2, RevealElapsed);
    NextPreservesInv(s3, AdvanceElapsed);
    Next(s3, AdvanceElapsed)
  }

  /** Questions the scenarios can be played on: a full ladder of answerable questions. */
  predicate PlayableQuestions(qs: seq<Question>)
  {
    && |qs| >= TotalQuestions
    && forall i :: 0 <= i < TotalQuestions ==>
         qs[i].correctAnswer in qs[i].options && qs[i].correctAnswer != ""
  }

  /** A game just loaded: first question on screen, nothing banked, nothing pending. */
  predicate FreshGame(s: Session)
  {
    && Inv(s)
    && s.state == QuestionAsking
    && s.index == 0
    && s.score == 0
    && s.disabled == []
    && PlayableQuestions(s.questions)
  }

  /** Answering the current question correctly below the top rung banks its prize and moves up one rung. */
  lemma CorrectAnswerClimbs(s: Session)
    requires Inv(s)
    requires s.state == QuestionAsking
    requires Current(s).Some?
    requires s.index < TotalQuestions - 1
    requires s.questions[s.index].correctAnswer in s.questions[s.index].options
    requires s.questions[s.index].correctAnswer != ""
    requires s.questions[s.index].correctAnswer !in s.disabled
    ensures Answer(s, s.questions[s.index].correctAnswer) ==
              s.(index := s.index + 1, score := PrizeLevels[s.index], selected := None,
                 disabled := [], showConfirm := false)
  {
  }

  /** Answering the top question correctly wins the million. */
  lemma CorrectAnswerOnTopRungWins(s: Session)
    requires Inv(s)
    requires s.state == QuestionAsking
    requires Current(s).Some?
    requires s.index == TotalQuestions - 1
    requires s.questions[s.index].correctAnswer in s.questions[s.index].options
    requires s.questions[s.index].correctAnswer != ""
    requires s.questions[s.index].correctAnswer !in s.disabled
    ensures Answer(s, s.questions[s.index].correctAnswer).state == GameWon
    ensures Answer(s, s.questions[s.index].correctAnswer).finalScore == 1000000
  {
  }

  /** A wrong answer ends the game with the guaranteed payout of the rung it was given on. */
  lemma WrongAnswerLoses(s: Session, option: string)
    requires Inv(s)
    requires s.state == QuestionAsking
    requires Current(s).Some?
    requires option in s.questions[s.index].options
    requires option != "" && option != s.questions[s.index].correctAnswer
    requires option !in s.disabled
    ensures Answer(s, option).state == GameOver
    ensures Answer(s, option).finalScore == WrongAnswerPayout(s.index)
  {
  }

  /** The correct answers to the first k questions. */
  function CorrectAnswers(qs: seq<Question>, k: nat): (answers: seq<string>)
    requires k <= |qs|
    ensures |answers| == k
    ensures forall i :: 0 <= i < k ==> answers[i] == qs[i].correctAnswer
  {
    seq(k, i requires 0 <= i < k => qs[i].correctAnswer)
  }

  /** Answer the questions in turn with the given options. */
  function Play(s: Session, answers: seq<string>): (r: Session)
    requires Inv(s)
    ensures Inv(r)
    decreases |answers|
  {
    if answers == [] then s
    else Answer(Play(s, answers[..|answers| - 1]), answers[|answers| - 1])
  }

  /** k correct answers from a fresh game reach rung k with the prize of rung k - 1 banked. */
  lemma {:induction false} ClimbLadder(s: Session, k: nat)
    requires FreshGame(s)
    requires k <= TotalQuestions - 1
    ensures Play(s, CorrectAnswers(s.questions, k)).state == QuestionAsking
    ensures Play(s, CorrectAnswers(s.questions, k)).index == k
    ensures Play(s, CorrectAnswers(s.questions, k)).score == if k == 0 then 0 else PrizeLevels[k - 1]
    ensures Play(s, CorrectAnswers(s.questions, k)).disabled == []
    ensures Play(s, CorrectAnswers(s.questions, k)).questions == s.questions
    ensures Play(s, CorrectAnswers(s.questions, k)).lifelines == s.lifelines
  {
    if k > 0 {
      ClimbLadder(s, k - 1);
      var answers := CorrectAnswers(s.questions, k);
      assert answers[..k - 1] == CorrectAnswers(s.questions, k - 1);
      var prev := Play(s, answers[..k - 1]);
      assert Play(s, answers) == Answer(prev, s.questions[k - 1].correctAnswer);
      ClimbStep(prev, s.questions, k);
    }
  }

  /** One more correct answer on rung k - 1 of a playable game. */
  lemma ClimbStep(prev: Session, qs: seq<Question>, k: nat)
    requires Inv(prev) && PlayableQuestions(qs)
    requires 1 <= k <= TotalQuestions - 1
    requires prev.state == QuestionAsking && prev.index == k - 1
    requires prev.disabled == [] && prev.questions == qs
    ensures Answer(prev, qs[k - 1].correctAnswer).state == QuestionAsking
    ensures Answer(prev, qs[k - 1].correctAnswer).index == k
    ensures Answer(prev, qs[k - 1].correctAnswer).score == PrizeLevels[k - 1]
    ensures Answer(prev, qs[k - 1].correctAnswer).disabled == []
    ensures Answer(prev, qs[k - 1].correctAnswer).questions == qs
    ensures Answer(prev, qs[k - 1].correctAnswer).lifelines == prev.lifelines
  {
  }

  /** Fifteen correct answers from a fresh game win, paying out the top rung: 1,000,000. */
  lemma FifteenCorrectAnswersWin(s: Session)
    requires FreshGame(s)
    ensures Play(s, CorrectAnswers(s.questions, TotalQuestions)).state == GameWon
    ensures Play(s, CorrectAnswers(s.questions, TotalQuestions)).finalScore == PrizeLevels[TotalQuestions - 1]
    ensures Play(s, CorrectAnswers(s.questions, TotalQuestions)).finalScore == 1000000
  {
    var answers := CorrectAnswers(s.questions, TotalQuestions);
    ClimbLadder(s, TotalQuestions - 1);
    assert answers[..TotalQuestions - 1] == CorrectAnswers(s.questions, TotalQuestions - 1);
    CorrectAnswerOnTopRungWins(Play(s, answers[..TotalQuestions - 1]));
  }

  /** Six correct answers, then a wrong one on rung 6: the game is over with the first checkpoint's 1000. */
  lemma WrongAnswerOnRungSixPaysFirstCheckpoint(s: Session, wrong: string)
    requires FreshGame(s)
    requires wrong in s.questions[6].options
    requires wrong != "" && wrong != s.questions[6].correctAnswer
    ensures Play(s, CorrectAnswers(s.questions, 6) + [wrong]).state == GameOver
    ensures Play(s, CorrectAnswers(s.questions, 6) + [wrong]).finalScore == 1000
  {
    var answers := CorrectAnswers(s.questions, 6) + [wrong];
    ClimbLadder(s, 6);
    assert answers[..6] == CorrectAnswers(s.questions, 6);
    WrongAnswerLoses(Play(s, answers[..6]), wrong);
  }

  /** Walking away on rung 7 keeps exactly the banked score, the prize of rung 6. */
  lemma WalkAwayOnRungSevenKeepsScore(s: Session)
    requires FreshGame(s)
    ensures Next(Play(s, CorrectAnswers(s.questions, 7)), WalkAwayPressed).state == GameOver
    ensures Next(Play(s, CorrectAnswers(s.questions, 7)), WalkAwayPressed).finalScore
            == Play(s, CorrectAnswers(s.questions, 7)).score == PrizeLevels[6]
  {
    WalkAwayKeepsScore(s, 7);
  }

  /** Walking away after k correct answers ends the game paying what was banked: the prize of rung k - 1. */
  lemma WalkAwayKeepsScore(s: Session, k: nat)
    requires FreshGame(s)
    requires k <= TotalQuestions - 1
    ensures Next(Play(s, CorrectAnswers(s.questions, k)), WalkAwayPressed).state == GameOver
    ensures Next(Play(s, CorrectAnswers(s.questions, k)), WalkAwayPressed).finalScore
            == Play(s, CorrectAnswers(s.questions, k)).score == if k == 0 then 0 else PrizeLevels[k - 1]
  {
    ClimbLadder(s, k);
    var p := Play(s, CorrectAnswers(s.questions, k));
    assert OnQuestionScreen(p);
    assert Next(p, WalkAwayPressed) == WalkAway(p);
  }

  /**
   A fetch that fails or returns nothing sends a (re)started game back to
   the welcome screen; from the initial session no question is retained.
   */
  lemma FailedFetchReturnsToWelcome(s: Session, fetched: Option<seq<Question>>)
    requires Inv(s)
    requires OnStartScreen(s)
    requires fetched.None? || fetched.value == []
    ensures Next(Next(s, StartPressed), QuestionsFetched(fetched)).state == Welcome
    ensures Next(Next(s, StartPressed), QuestionsFetched(fetched)).questions == s.questions
    ensures s == Initial ==> Next(Next(s, StartPressed), QuestionsFetched(fetched)).questions == []
  {
    NextPreservesInv(s, StartPressed);
  }
}
