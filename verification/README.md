# Millionaire quiz session — a Dafny model

This project models the game logic of a "who wants to win the million" quiz
client. A game climbs a ladder of fifteen questions of increasing prize. It
has two guaranteed checkpoint rungs and three one-time lifelines: 50:50,
ask the audience and ask the AI. The React component keeps the session in
`useState` fields and changes it in event handlers and timer callbacks.
The model turns that state into one immutable `Session` record and each
handler into a pure transition function.

Modules, following the source files:

- `Ladder` (`ladder.dfy`, from `constants.ts`): the prize table, the checkpoint
  positions, and the guaranteed payout after a wrong answer.
- `Types` (`types.dfy`, from `types.ts`): `Question`, `GameState`, `LifelineState`
  and `AudienceVote`.
- `Elimination` (`elimination.dfy`): the 50:50 algorithm.
- `Audience` (`audience.dfy`): the audience poll. It draws random weights,
  rounds them to whole percentages, and hands the rounding residual to the
  first largest share after a stable descending sort.
- `Session` (`session.dfy`, from the handlers in `App.tsx`): one function per
  handler. The two `setTimeout` callbacks of a confirmed answer become the
  explicit steps `Resolve` and `Advance`.
- `Machine` (`machine.dfy`): events as the rendered screen offers them, an
  invariant that every reachable session keeps, and the end-to-end scenarios.
- `Wrappers` (`wrappers.dfy`): `Option`, standing in for `null`/`undefined`.

Randomness becomes parameters. 50:50 takes the position (`pick`) of the
incorrect option the shuffle puts first. The audience poll takes one base
weight in [10, 39] and one bonus in [25, 54] per option. The question service
is the `fetched` argument of `FinishLoading`; `None` is a failed call.

Behaviour of the code worth noting:

- The confirm handler checks only that there is a selection and a current
  question. It does not check the state. The confirm button is rendered only
  while a question is asked (App.tsx:318), so `Machine.Next` offers the event
  only there. `Machine.ConfirmOnlyWhileAsking` states the resulting no-op.
- `handleSelectAnswer` does not reject disabled options. The option buttons
  do (App.tsx:306-310), and `Machine.OptionEnabled` models that.
- The selection test `!selectedAnswer` also treats the empty string as "no
  selection". `Session.HasSelection` models this.
- A failed or empty fetch returns to the welcome screen but does not clear
  the questions of an earlier game (`Session.FinishLoading`).
- If the service returns fewer than 15 questions, answering the last one
  correctly does not end the game. It leaves the session asking a question
  that does not exist. Only the "no questions available" indicator is shown,
  and no event changes anything any more (`Machine.ExhaustedQuestionsIsDeadEnd`).
- When the rounded shares do not sum to 100, the poll returns the votes
  sorted by descending share, not in option order (`Audience.Rebalance`).
  Ties keep option order, as JavaScript's sort is stable
  (`Audience.RebalanceStable`).
- A question's prize is `PRIZE_LEVELS[index] || 0`: positions past the
  ladder get 0 rather than an out-of-range error (`Session.FinishLoading`).
- There is no generation counter for late fetch results. The model accepts a
  fetch result only in `LoadingQuestions`. No other event can move a session
  out of that state, so no result can arrive anywhere else.

## Model

| member | source | states |
|---|---|---|
| Ladder.DefaultLadderShape | constants.ts:2-22 | The ladder has 15 strictly increasing rungs and `TotalQuestions` is its length. The checkpoints are [4, 9], ascending and on the ladder, worth 1000 and 32000. The top rung is 1,000,000. The easy, medium and hard counts add up to 15. |
| Ladder.ScanDownStopsAtLastBelow | App.tsx:117-121 | The descending loop stops at the last checkpoint below p and pays its rung's value. If no checkpoint is below p, it pays 0. |
| Ladder.CheckpointValueBelowIsHighest | App.tsx:116-122 | On ascending checkpoints the scan pays the value of the highest checkpoint strictly below p, or 0 when there is none. Such a checkpoint exists whenever any checkpoint lies below p. |
| Ladder.PayoutAtMostPreviousRung | App.tsx:116-122 | On an increasing ladder the guaranteed payout at position p never exceeds the prize of rung p-1. |
| Ladder.WrongAnswerPayout | App.tsx:116-122 | A wrong answer on the default ladder pays 0 up to rung 4, 1000 on rungs 5-9, and 32000 from rung 10. |
| Types.Ordinal | types.ts:11-21 | Each state's enumeration value is below 9. |
| Types.ExactlyNineStates | types.ts:11-21 | Enumeration values map one-to-one onto 0..8, so there are exactly nine states. The initial state, Welcome, has value 0. |
| Elimination.Without | App.tsx:135 | Filtering keeps exactly the elements not in the dropped set, and never lengthens the list. |
| Elimination.Eliminate | App.tsx:134-139 | An option is disabled iff it is an option of the question, not the correct answer, and not the incorrect option the shuffle put first. |
| Elimination.FiftyFiftyDisablesTwo | App.tsx:134-139 | For 4 distinct options that include the correct answer: 3 options are incorrect, and exactly 2 distinct options are disabled. Neither is the correct answer or the surviving option, and both are options of the question. |
| Audience.RawVotes | App.tsx:148-155 | There is one vote per option, in option order. With draws in range, every weight lies in [10, 93]; the correct option's weight is its base draw plus its bonus draw, so it lies in [35, 93], and every other option's weight is exactly its base draw, so only the correct answer gets the boost. |
| Audience.RoundedShareIsNearest | App.tsx:161 | The integer share is the nearest integer to 100*w/total, with halves rounded up, and lies in [0, 100]. |
| Audience.Normalize | App.tsx:158-162 | Normalising keeps every vote's option and the order, and vote i's new share is the rounded share of vote i's own weight in the total, capped at 100. |
| Audience.NormalizeShares | App.tsx:159-162 | Every normalised share is a percentage in [0, 100]. |
| Audience.NormalizeSum | App.tsx:157-162 | Rounding moves the sum of the shares by at most half a point per vote. |
| Audience.FirstMaxIndex | App.tsx:168-169 | The index points at a largest share, and every earlier vote is strictly smaller. |
| Audience.InsertDesc | App.tsx:168 | Inserting adds exactly one element. A vote that ties the head goes in front of it. |
| Audience.InsertDescAccounts | App.tsx:168 | Inserting adds exactly the vote's option and the vote's share. |
| Audience.InsertDescSorted | App.tsx:168 | Inserting keeps a descending list descending. |
| Audience.SortDesc | App.tsx:168 | Sorting returns a permutation of the votes, of the same length. |
| Audience.SortDescAccounts | App.tsx:168 | Sorting keeps the options, as a multiset, and the sum of the shares. |
| Audience.SortDescSorted | App.tsx:168 | The sorted votes are descending by share. |
| Audience.SortDescHead | App.tsx:168-169 | The sort is stable at the head: the first vote after sorting is the first maximal vote in option order. |
| Audience.SortDescStable | App.tsx:168 | The sort is stable: for every share, the votes with that share come out in the order they went in. |
| Audience.SortDescTailStable | App.tsx:168 | Behind the first maximal vote, the sorted votes of each share are the other votes of that share in option order. |
| Audience.RebalanceStable | App.tsx:165-170 | After rebalancing, the votes behind the adjusted leader list, share by share, the other votes in option order. |
| Audience.Rebalance | App.tsx:164-170 | After rebalancing the shares sum to exactly 100 and the options are permuted. A sum of 100 leaves the votes untouched. Otherwise the first maximal vote comes first and absorbs the residual. The other votes follow in descending order. |
| Audience.RebalanceKeepsPercentages | App.tsx:164-170 | With 1..14 votes that overshoot 100 by at most half a point each, every share after rebalancing stays in [0, 100]. |
| Audience.SimulateAudience | App.tsx:149-170 | A poll has one vote per option and its options are a permutation of the question's. Its shares sum to exactly 100 whenever there is an option. |
| Audience.AudienceSharesArePercentages | App.tsx:149-170 | For any draws in range and up to 14 options, every share of the poll lies in [0, 100]. |
| Session.Reset | App.tsx:50-61 | After a reset every per-game field equals its value in the initial session: no lifeline used, no selection, nothing disabled, rung 0, score and final score 0, the welcome state. |
| Session.StartGame | App.tsx:69-72 | Starting a game gives the initial session in the loading state; only the questions, poll, hint and pending step of before are carried over. |
| Session.FinishLoading | App.tsx:30-48 | A non-empty batch starts play, and each question's prize is its rung's value, or 0 past the ladder. Nothing else about a question and nothing else in the session changes. A failed or empty fetch only returns to the welcome state. |
| Session.SelectAnswer | App.tsx:77-83 | Selecting records the option and shows the confirm button only while a question is asked. Otherwise nothing changes. |
| Session.ConfirmAnswer | App.tsx:85-95 | Without a selection or a current question nothing changes. Otherwise the confirm button hides, the state becomes RevealingAnswer, and the reveal is scheduled with the answer, question and rung. |
| Session.Resolve | App.tsx:96-127 | A correct answer banks the rung's prize. On the last rung it wins with final score 1,000,000; below it, the advance is scheduled. A wrong answer ends the game paying 0, 1000 or 32000 by rung. Nothing but the score, final score, state and pending step changes. |
| Session.Advance | App.tsx:106-112 | The advance step moves up exactly one rung, clears the selection and the disabled options, and asks again. Nothing else changes: score, final score, lifelines, questions, poll and hint stay. |
| Session.UseFiftyFifty | App.tsx:130-140 | 50:50 is a no-op without a current question, once used, or outside QuestionAsking. Otherwise it sets only its own flag and the disabled options. On a well-formed question exactly two options are disabled, never the correct one. |
| Session.UseAskAudience | App.tsx:142-174 | The audience lifeline has the same guard. It sets only its own flag, opens the chart and stores the poll simulated from the current question's options, its correct answer and the draws (`Audience.SimulateAudience`). On a well-formed question the poll has 4 votes, one per option, each in [0, 100], summing to 100. |
| Session.UseAskAI | App.tsx:176-185 | The AI lifeline has the same guard. It sets only its own flag, opens the hint panel and marks the hint as loading. |
| Session.WalkAway | App.tsx:187-193 | Walking away from QuestionAsking or AnswerSelected ends the game with final score equal to the banked score. In any other state nothing changes. |
| Session.CloseAudience | App.tsx:335-337 | Closing the chart returns to QuestionAsking and changes nothing else. |
| Session.CloseHint | App.tsx:338-340 | Closing the hint panel returns to QuestionAsking and changes nothing else. |
| Machine.NextPreservesInv | App.tsx:85-127 | Every event keeps the invariant. The rung stays within the ladder, a reveal or advance is pending exactly while revealing, the reveal's rung is the current one, and an advance is pending only below the top rung. |
| Machine.NothingEntersAnswerSelected | types.ts:15 | No event leads into AnswerSelected from another state. |
| Machine.Run | App.tsx:96-113 | Every sequence of events keeps the invariant and never enters AnswerSelected. |
| Machine.Reachable | App.tsx:96-113 | From the initial session the rung never exceeds TotalQuestions-1, and AnswerSelected is never reached. |
| Machine.LifelinesUsedOnce | App.tsx:130-185 | Within a game a used lifeline stays used. Pressing a used lifeline changes nothing, and each lifeline leaves the other two flags alone. |
| Machine.LadderPositionMonotone | App.tsx:106-112 | Within a game the rung never decreases and rises by at most one. It rises only when a pending advance runs. |
| Machine.ConfirmOnlyWhileAsking | App.tsx:318-325 | Confirming outside QuestionAsking, or without a selection, changes nothing. |
| Machine.ExhaustedQuestionsIsDeadEnd | App.tsx:254-256 | Asking with no current question (fewer questions fetched than rungs) ignores every event. |
| Machine.CorrectAnswerClimbs | App.tsx:96-113 | Below the top rung, a correct answer leaves the session asking the next question, one rung up. The rung's prize is banked and nothing is selected or disabled. |
| Machine.CorrectAnswerOnTopRungWins | App.tsx:99-104 | A correct answer on the top rung wins with final score 1,000,000. |
| Machine.WrongAnswerLoses | App.tsx:114-126 | A wrong answer ends the game with the guaranteed payout of its rung. |
| Machine.ClimbLadder | App.tsx:96-113 | After k correct answers from a fresh game (k up to 14), the session asks question k with the prize of rung k-1 banked. |
| Machine.FifteenCorrectAnswersWin | App.tsx:96-113 | Fifteen correct answers from a fresh game win, with final score equal to the top rung, 1,000,000. |
| Machine.WrongAnswerOnRungSixPaysFirstCheckpoint | App.tsx:114-126 | Six correct answers and then a wrong one end the game with 1000. |
| Machine.WalkAwayKeepsScore | App.tsx:187-193 | Walking away after k correct answers (k at most 14) ends the game with exactly the banked score: 0, or the prize of rung k-1. |
| Machine.WalkAwayOnRungSevenKeepsScore | App.tsx:187-193 | Walking away on rung 7 ends the game with exactly the banked score, the prize of rung 6. |
| Machine.FailedFetchReturnsToWelcome | App.tsx:42-47 | Starting a game whose fetch fails or is empty ends on the welcome screen, with the earlier questions still in place. From the initial session no question is retained. |

## Left out

- Audio (`playSound`, `playMusic`, `stopMusic`, `stopAllMusic`, `setGlobalVolume`, `toggleMute`, `isMuted`): fire-and-forget side effects with no effect on game logic.
- Rendering: JSX, styling, `getOptionClass`, `toLocaleString` and the money tree are presentation. The model keeps only which controls each screen offers, in `Machine.Next`.
- The network calls: the question service is the `fetched` argument. The hint service's reply (App.tsx:182-184, storing the hint and clearing the loading flag) is not modelled, because its content comes from the remote service. `loadingHint` stays true once the AI lifeline is used.
- Question ids: the fallback id built from `Date.now()` (App.tsx:37) needs a clock. Fetched ids are kept as they are.
- Real delays: the 3000 ms timers become the `Resolve` and `Advance` steps. A pending timer is one slot, `Session.Timer`. A second confirm while a reveal is pending would schedule a second timer in the source, which the model does not represent. The screen never offers a confirm then.
- Floating point: `Math.round(w / total * 100)` is computed on exact rationals as `(200*w + total) div (2*total)`. Float rounding error is not modelled.
- `Math.random`: replaced by the bounded parameters `pick`, `bases` and `bonuses`.
- Alerts, console output, the model-name constant and the sound URLs.
- Audience.AudienceSharesArePercentages: proved for up to 14 options only (a question has 4). With many options every rounded share can round up, and the residual can push the largest share below 0.
