/**
 The prize ladder: fifteen rungs of increasing value and the two checkpoint
 rungs whose value a contestant keeps after a wrong answer (constants.ts).
 */
module Ladder {

  /** Prize for each rung, lowest first. */
  const PrizeLevels: seq<nat> :=
    [ 100, 200, 300, 500, 1000,
      2000, 4000, 8000, 16000, 32000,
      64000, 125000, 250000, 500000, 1000000 ]

  /** Zero-based positions of the guaranteed ("checkpoint") rungs. */
  const GuaranteedLevelIndices: seq<nat> := [4, 9]

  /** One question per rung. */
  const TotalQuestions: nat := |PrizeLevels|

  /** How many questions of each difficulty a game asks for. */
  const EasyQuestionsCount: nat := 5
  const MediumQuestionsCount: nat := 5
  const HardQuestionsCount: nat := 5

  predicate StrictlyIncreasing(s: seq<nat>)
  {
    forall i, j :: 0 <= i < j < |s| ==> s[i] < s[j]
  }

  /** Checkpoints are ascending positions that all lie on the ladder. */
  predicate ValidCheckpoints(ladder: seq<nat>, checkpoints: seq<nat>)
  {
    && StrictlyIncreasing(checkpoints)
    && forall k :: 0 <= k < |checkpoints| ==> checkpoints[k] < |ladder|
  }

  /** The default ladder: its size, order, checkpoints and notable values. */
  lemma DefaultLadderShape()
    ensures TotalQuestions == 15
    ensures StrictlyIncreasing(PrizeLevels)
    ensures GuaranteedLevelIndices == [4, 9]
    ensures ValidCheckpoints(PrizeLevels, GuaranteedLevelIndices)
    ensures PrizeLevels[GuaranteedLevelIndices[0]] == 1000
    ensures PrizeLevels[GuaranteedLevelIndices[1]] == 32000
    ensures PrizeLevels[TotalQuestions - 1] == 1000000
    ensures EasyQuestionsCount + MediumQuestionsCount + HardQuestionsCount == TotalQuestions
  {
  }

  /**
   The payout loop of a wrong answer at position p: walk the checkpoints from
   the last one down and stop at the first one strictly below p.
   */
  function ScanDown(ladder: seq<nat>, checkpoints: seq<nat>, p: int, i: int): nat
    requires forall k :: 0 <= k < |checkpoints| ==> checkpoints[k] < |ladder|
    requires -1 <= i < |checkpoints|
    decreases i + 1
  {
    if i < 0 then 0
    else if p > checkpoints[i] then ladder[checkpoints[i]]
    else ScanDown(ladder, checkpoints, p, i - 1)
  }

  function CheckpointValueBelow(ladder: seq<nat>, checkpoints: seq<nat>, p: int): nat
    requires forall k :: 0 <= k < |checkpoints| ==> checkpoints[k] < |ladder|
  {
    ScanDown(ladder, checkpoints, p, |checkpoints| - 1)
  }

  /** k is the checkpoint with the largest position strictly below p. */
  ghost predicate HighestBelow(checkpoints: seq<nat>, p: int, k: int)
  {
    && 0 <= k < |checkpoints|
    && checkpoints[k] < p
    && forall j :: 0 <= j < |checkpoints| && checkpoints[j] < p ==> checkpoints[j] <= checkpoints[k]
  }

  /** The scan stops at the last checkpoint (among the first i + 1) below p, or finds none. */
  lemma {:induction false} ScanDownStopsAtLastBelow(ladder: seq<nat>, checkpoints: seq<nat>, p: int, i: int)
    returns (k: int)
    requires forall k :: 0 <= k < |checkpoints| ==> checkpoints[k] < |ladder|
    requires -1 <= i < |checkpoints|
    ensures -1 <= k <= i
    ensures k == -1 ==> ScanDown(ladder, checkpoints, p, i) == 0
    ensures k == -1 ==> forall j :: 0 <= j <= i ==> checkpoints[j] >= p
    ensures k >= 0 ==> checkpoints[k] < p && ScanDown(ladder, checkpoints, p, i) == ladder[checkpoints[k]]
    ensures k >= 0 ==> forall j :: k < j <= i ==> checkpoints[j] >= p
    decreases i + 1
  {
    if i < 0 {
      k := -1;
    } else if p > checkpoints[i] {
      k := i;
    } else {
      k := ScanDownStopsAtLastBelow(ladder, checkpoints, p, i - 1);
    }
  }

  /**
   Because the checkpoints ascend, the descending scan pays out the value of
   the highest checkpoint strictly below p, and 0 when there is none.
   */
  lemma CheckpointValueBelowIsHighest(ladder: seq<nat>, checkpoints: seq<nat>, p: int)
    requires ValidCheckpoints(ladder, checkpoints)
    ensures (forall j :: 0 <= j < |checkpoints| ==> checkpoints[j] >= p) ==>
              CheckpointValueBelow(ladder, checkpoints, p) == 0
    ensures forall k :: HighestBelow(checkpoints, p, k) ==>
              CheckpointValueBelow(ladder, checkpoints, p) == ladder[checkpoints[k]]
    ensures (exists j :: 0 <= j < |checkpoints| && checkpoints[j] < p) ==>
              exists k :: HighestBelow(checkpoints, p, k)
  {
    var w := ScanDownStopsAtLastBelow(ladder, checkpoints, p, |checkpoints| - 1);
    if w >= 0 {
      assert HighestBelow(checkpoints, p, w);
      forall k | HighestBelow(checkpoints, p, k)
        ensures k == w
      {
        assert checkpoints[k] == checkpoints[w];
      }
    }
  }

  /** On an ascending ladder the guaranteed payout never exceeds the last rung reached. */
  lemma PayoutAtMostPreviousRung(ladder: seq<nat>, checkpoints: seq<nat>, p: int)
    requires ValidCheckpoints(ladder, checkpoints)
    requires StrictlyIncreasing(ladder)
    requires 1 <= p <= |ladder|
    ensures CheckpointValueBelow(ladder, checkpoints, p) <= ladder[p - 1]
  {
    var w := ScanDownStopsAtLastBelow(ladder, checkpoints, p, |checkpoints| - 1);
    if w >= 0 && checkpoints[w] < p - 1 {
      assert ladder[checkpoints[w]] < ladder[p - 1];
    }
  }

  /**
   The payout after a wrong answer on rung p of the default ladder: nothing
   below the first checkpoint, then 1000, then 32000.
   */
  function WrongAnswerPayout(p: int): (r: nat)
    ensures p <= 4 ==> r == 0
    ensures 5 <= p <= 9 ==> r == 1000
    ensures 10 <= p ==> r == 32000
  {
    assert ScanDown(PrizeLevels, GuaranteedLevelIndices, p, 0) == if p > 4 then 1000 else 0;
    CheckpointValueBelow(PrizeLevels, GuaranteedLevelIndices, p)
  }
}
