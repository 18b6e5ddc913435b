/**
 The ask-the-audience lifeline (App.tsx, handleUseAskAudience): random
 weights skewed towards the correct answer, normalised to whole percentages,
 and the rounding residual added to the largest share.
 */
module Audience {
  import opened Types

  /** Range of the base weight every option draws: floor(random * 30) + 10. */
  const BaseMin: int := 10
  const BaseMax: int := 39

  /** Range of the extra weight the correct option draws: floor(random * 30) + 25. */
  const BonusMin: int := 25
  const BonusMax: int := 54

  predicate InRange(s: seq<int>, lo: int, hi: int)
  {
    forall i :: 0 <= i < |s| ==> lo <= s[i] <= hi
  }

  /** The random draws of one poll: a base and a potential bonus per option, each in its range. */
  predicate ValidDraws(options: seq<string>, bases: seq<int>, bonuses: seq<int>)
  {
    && |bases| == |options|
    && |bonuses| == |options|
    && InRange(bases, BaseMin, BaseMax)
    && InRange(bonuses, BonusMin, BonusMax)
  }

  function OptionsOf(votes: seq<AudienceVote>): seq<string>
  {
    if votes == [] then [] else [votes[0].option] + OptionsOf(votes[1..])
  }

  function SumPct(votes: seq<AudienceVote>): int
  {
    if votes == [] then 0 else votes[0].percentage + SumPct(votes[1..])
  }

  predicate SharesIn(votes: seq<AudienceVote>, lo: int, hi: int)
  {
    forall i :: 0 <= i < |votes| ==> lo <= votes[i].percentage <= hi
  }

  /** The unnormalised votes: each option's base, plus the bonus when it is the correct answer. */
  function RawVotes(options: seq<string>, correct: string, bases: seq<int>, bonuses: seq<int>): (votes: seq<AudienceVote>)
    requires |bases| == |options| && |bonuses| == |options|
    ensures |votes| == |options|
    ensures OptionsOf(votes) == options
    ensures InRange(bases, BaseMin, BaseMax) && InRange(bonuses, BonusMin, BonusMax) ==>
              SharesIn(votes, BaseMin, BaseMax + BonusMax)
    ensures forall i :: 0 <= i < |options| ==> votes[i].option == options[i]
    ensures ValidDraws(options, bases, bonuses) ==>
              forall i :: 0 <= i < |options| ==>
                && (options[i] == correct ==> votes[i].percentage == bases[i] + bonuses[i])
                && (options[i] == correct ==> BaseMin + BonusMin <= votes[i].percentage <= BaseMax + BonusMax)
                && (options[i] != correct ==> votes[i].percentage == bases[i])
  {
    if options == [] then []
    else
      var w := bases[0] + (if options[0] == correct then bonuses[0] else 0);
      var rest := RawVotes(options[1..], correct, bases[1..], bonuses[1..]);
      assert forall i :: 1 <= i < |options| ==>
               && options[i] == options[1..][i - 1]
               && bases[i] == bases[1..][i - 1]
               && bonuses[i] == bonuses[1..][i - 1];
      assert forall i :: 1 <= i < |options| ==> ([AudienceVote(options[0], w)] + rest)[i] == rest[i - 1];
      [AudienceVote(options[0], w)] + rest
  }

  /** Non-negative shares each lie below their total. */
  lemma {:induction false} NonNegativeSharesBelowTotal(votes: seq<AudienceVote>, hi: int)
    requires SharesIn(votes, 0, hi)
    ensures 0 <= SumPct(votes)
    ensures SharesIn(votes, 0, SumPct(votes))
  {
    if votes != [] {
      NonNegativeSharesBelowTotal(votes[1..], hi);
      forall i | 1 <= i < |votes|
        ensures votes[i].percentage <= SumPct(votes)
      {
        assert votes[i] == votes[1..][i - 1];
      }
    }
  }

  /**
   Math.round(w / total * 100) computed exactly: the nearest integer to
   100 * w / total, halves rounded up.
   */
  function RoundedShare(w: int, total: int): int
    requires total > 0
  {
    (200 * w + total) / (2 * total)
  }

  /** Integer division by a positive divisor brackets the dividend. */
  lemma DivBracket(a: int, d: int)
    requires d > 0
    ensures d * (a / d) <= a < d * (a / d) + d
  {
  }

  lemma MulLeftMonotone(d: int, x: int, y: int)
    requires d > 0 && x <= y
    ensures d * x <= d * y
  {
  }

  /** RoundedShare is within one half of 100 * w / total, halves going up; it is a percentage. */
  lemma RoundedShareIsNearest(w: int, total: int)
    requires 0 <= w <= total
    requires total > 0
    ensures 2 * total * RoundedShare(w, total) <= 200 * w + total
    ensures 200 * w + total < 2 * total * RoundedShare(w, total) + 2 * total
    ensures 0 <= RoundedShare(w, total) <= 100
  {
    var a := 200 * w + total;
    var d := 2 * total;
    var r := a / d;
    DivBracket(a, d);
    assert 2 * total * r == d * r;
    if r > 100 {
      MulLeftMonotone(d, 101, r);
      assert false;
    }
    if r < 0 {
      MulLeftMonotone(d, r, -1);
      assert false;
    }
  }

  function Min(a: int, b: int): int
  {
    if a < b then a else b
  }

  /** Every vote's weight replaced by its share of total, capped at 100. */
  function Normalize(votes: seq<AudienceVote>, total: int): (r: seq<AudienceVote>)
    requires total > 0
    ensures |r| == |votes|
    ensures OptionsOf(r) == OptionsOf(votes)
    ensures forall i :: 0 <= i < |votes| ==>
              && r[i].option == votes[i].option
              && r[i].percentage == Min(RoundedShare(votes[i].percentage, total), 100)
  {
    if votes == [] then []
    else
      var v := votes[0];
      var share := RoundedShare(v.percentage, total);
      [v.(percentage := if share < 100 then share else 100)] + Normalize(votes[1..], total)
  }

  /** Normalised shares are percentages. */
  lemma {:induction false} NormalizeShares(votes: seq<AudienceVote>, total: int)
    requires total > 0
    requires SharesIn(votes, 0, total)
    ensures SharesIn(Normalize(votes, total), 0, 100)
  {
    if votes != [] {
      var rest := votes[1..];
      assert SharesIn(rest, 0, total) by {
        forall i | 0 <= i < |rest| ensures 0 <= rest[i].percentage <= total {
          assert rest[i] == votes[i + 1];
        }
      }
      NormalizeShares(rest, total);
      RoundedShareIsNearest(votes[0].percentage, total);
      var n := Normalize(votes, total);
      forall i | 0 <= i < |n|
        ensures 0 <= n[i].percentage <= 100
      {
        if i > 0 {
          assert n[i] == Normalize(rest, total)[i - 1];
        }
      }
    }
  }

  /**
   Rounding moves the sum of the shares by at most half a point per vote:
   with total the votes' own total, 100 - n/2 < sum <= 100 + n/2.
   */
  lemma {:induction false} NormalizeSum(votes: seq<AudienceVote>, total: int)
    requires total > 0
    requires SharesIn(votes, 0, total)
    ensures 2 * total * SumPct(Normalize(votes, total)) <= 200 * SumPct(votes) + |votes| * total
    ensures votes != [] ==> 200 * SumPct(votes) - |votes| * total < 2 * total * SumPct(Normalize(votes, total))
  {
    if votes != [] {
      var rest := votes[1..];
      assert SharesIn(rest, 0, total) by {
        forall i | 0 <= i < |rest| ensures 0 <= rest[i].percentage <= total {
          assert rest[i] == votes[i + 1];
        }
      }
      NormalizeSum(rest, total);
      var w0 := votes[0].percentage;
      var r0 := RoundedShare(w0, total);
      RoundedShareIsNearest(w0, total);
      StepSum(total, w0, r0, SumPct(rest), SumPct(Normalize(rest, total)), |rest|);
      assert Normalize(votes, total)[1..] == Normalize(rest, total);
    }
  }

  /** The inductive step of NormalizeSum, as plain arithmetic. */
  lemma StepSum(t: int, w0: int, r0: int, w: int, s: int, n: nat)
    requires t > 0
    requires 2 * t * r0 <= 200 * w0 + t
    requires 200 * w0 + t < 2 * t * r0 + 2 * t
    requires 2 * t * s <= 200 * w + n * t
    requires n > 0 ==> 200 * w - n * t < 2 * t * s
    requires n == 0 ==> s == 0 && w == 0
    ensures 2 * t * (r0 + s) <= 200 * (w0 + w) + (n + 1) * t
    ensures 200 * (w0 + w) - (n + 1) * t < 2 * t * (r0 + s)
  {
    MulAdd(2 * t, r0, s);
    MulAdd(200, w0, w);
    MulAdd(t, n, 1);
    assert (n + 1) * t == n * t + t;
    assert 200 * w0 - t < 2 * t * r0;
    if n == 0 {
      assert 2 * t * s == 0 && n * t == 0;
    }
    assert 200 * w - n * t <= 2 * t * s;
  }

  lemma MulAdd(d: int, x: int, y: int)
    ensures d * (x + y) == d * x + d * y
  {
  }

  predicate SortedDesc(votes: seq<AudienceVote>)
  {
    forall i, j :: 0 <= i < j < |votes| ==> votes[i].percentage >= votes[j].percentage
  }

  /** Position of the first vote with the largest share. */
  function FirstMaxIndex(votes: seq<AudienceVote>): (k: nat)
    requires votes != []
    ensures k < |votes|
    ensures forall j :: 0 <= j < |votes| ==> votes[j].percentage <= votes[k].percentage
    ensures forall j :: 0 <= j < k ==> votes[j].percentage < votes[k].percentage
  {
    if |votes| == 1 then 0
    else
      var k := FirstMaxIndex(votes[1..]);
      assert forall j :: 1 <= j < |votes| ==> votes[j] == votes[1..][j - 1];
      if votes[0].percentage >= votes[1..][k].percentage then 0 else k + 1
  }

  /** Insert v before the first vote with a smaller share: ties keep v in front. */
  function InsertDesc(v: AudienceVote, sorted: seq<AudienceVote>): (r: seq<AudienceVote>)
    ensures |r| == |sorted| + 1
    ensures multiset(r) == multiset{v} + multiset(sorted)
    ensures r[0] == if sorted == [] || v.percentage >= sorted[0].percentage then v else sorted[0]
  {
    if sorted == [] || v.percentage >= sorted[0].percentage then
      [v] + sorted
    else
      assert sorted == [sorted[0]] + sorted[1..];
      [sorted[0]] + InsertDesc(v, sorted[1..])
  }

  /** Insertion adds exactly v's option and v's share. */
  lemma {:induction false} InsertDescAccounts(v: AudienceVote, sorted: seq<AudienceVote>)
    ensures multiset(OptionsOf(InsertDesc(v, sorted))) == multiset{v.option} + multiset(OptionsOf(sorted))
    ensures SumPct(InsertDesc(v, sorted)) == v.percentage + SumPct(sorted)
  {
    var r := InsertDesc(v, sorted);
    if sorted == [] || v.percentage >= sorted[0].percentage {
      assert r[1..] == sorted;
    } else {
      InsertDescAccounts(v, sorted[1..]);
      assert r[1..] == InsertDesc(v, sorted[1..]);
    }
  }

  /** A vote no smaller than the head of a descending sequence can go in front of it. */
  lemma ConsSorted(x: AudienceVote, s: seq<AudienceVote>)
    requires SortedDesc(s)
    requires s != [] ==> x.percentage >= s[0].percentage
    ensures SortedDesc([x] + s)
  {
    var r := [x] + s;
    forall i, j | 0 <= i < j < |r| ensures r[i].percentage >= r[j].percentage {
      assert r[j] == s[j - 1];
      if i > 0 {
        assert r[i] == s[i - 1];
      } else if j > 1 {
        assert s[0].percentage >= s[j - 1].percentage;
      }
    }
  }

  /** Insertion keeps a descending sequence descending. */
  lemma {:induction false} InsertDescSorted(v: AudienceVote, sorted: seq<AudienceVote>)
    requires SortedDesc(sorted)
    ensures SortedDesc(InsertDesc(v, sorted))
  {
    if sorted == [] || v.percentage >= sorted[0].percentage {
      ConsSorted(v, sorted);
    } else {
      var tail := sorted[1..];
      assert SortedDesc(tail) by {
        forall i, j | 0 <= i < j < |tail| ensures tail[i].percentage >= tail[j].percentage {
          assert tail[i] == sorted[i + 1] && tail[j] == sorted[j + 1];
        }
      }
      InsertDescSorted(v, tail);
      if tail != [] {
        assert sorted[0].percentage >= sorted[1].percentage;
      }
      ConsSorted(sorted[0], InsertDesc(v, tail));
    }
  }

  /**
   Stable descending sort by share (Array.prototype.sort with comparator
   b.percentage - a.percentage), as insertion sort.
   */
  function SortDesc(votes: seq<AudienceVote>): (r: seq<AudienceVote>)
    ensures |r| == |votes|
    ensures multiset(r) == multiset(votes)
  {
    if votes == [] then []
    else
      assert votes == [votes[0]] + votes[1..];
      InsertDesc(votes[0], SortDesc(votes[1..]))
  }

  /** Sorting keeps the options and the sum of the shares. */
  lemma {:induction false} SortDescAccounts(votes: seq<AudienceVote>)
    ensures multiset(OptionsOf(SortDesc(votes))) == multiset(OptionsOf(votes))
    ensures SumPct(SortDesc(votes)) == SumPct(votes)
  {
    if votes != [] {
      SortDescAccounts(votes[1..]);
      InsertDescAccounts(votes[0], SortDesc(votes[1..]));
    }
  }

  lemma {:induction false} SortDescSorted(votes: seq<AudienceVote>)
    ensures SortedDesc(SortDesc(votes))
  {
    if votes != [] {
      SortDescSorted(votes[1..]);
      InsertDescSorted(votes[0], SortDesc(votes[1..]));
    }
  }

  /** The sort is stable at the head: it starts with the first maximal vote in the original order. */
  lemma {:induction false} SortDescHead(votes: seq<AudienceVote>)
    requires votes != []
    ensures SortDesc(votes)[0] == votes[FirstMaxIndex(votes)]
  {
    if |votes| > 1 {
      SortDescHead(votes[1..]);
      var k := FirstMaxIndex(votes[1..]);
      assert votes[1..][k] == votes[k + 1];
    }
  }

  /** The votes with share p, in their original order. */
  function WithShare(votes: seq<AudienceVote>, p: int): seq<AudienceVote>
  {
    if votes == [] then []
    else (if votes[0].percentage == p then [votes[0]] else []) + WithShare(votes[1..], p)
  }

  lemma {:induction false} WithShareNone(votes: seq<AudienceVote>, p: int)
    requires forall i :: 0 <= i < |votes| ==> votes[i].percentage != p
    ensures WithShare(votes, p) == []
  {
    if votes != [] {
      assert forall i :: 0 <= i < |votes[1..]| ==> votes[1..][i] == votes[i + 1];
      WithShareNone(votes[1..], p);
    }
  }

  lemma {:induction false} WithShareAppend(a: seq<AudienceVote>, b: seq<AudienceVote>, p: int)
    ensures WithShare(a + b, p) == WithShare(a, p) + WithShare(b, p)
  {
    if a == [] {
      assert a + b == b;
    } else {
      assert (a + b)[0] == a[0];
      assert (a + b)[1..] == a[1..] + b;
      WithShareAppend(a[1..], b, p);
    }
  }

  /** Insertion places v in front of every vote it ties with. */
  lemma {:induction false} InsertDescStable(v: AudienceVote, sorted: seq<AudienceVote>, p: int)
    ensures WithShare(InsertDesc(v, sorted), p) ==
              (if v.percentage == p then [v] else []) + WithShare(sorted, p)
  {
    if sorted == [] || v.percentage >= sorted[0].percentage {
      assert ([v] + sorted)[1..] == sorted;
    } else {
      var r := InsertDesc(v, sorted);
      assert r[1..] == InsertDesc(v, sorted[1..]);
      InsertDescStable(v, sorted[1..], p);
    }
  }

  /** The sort is stable: for every share, the votes with that share keep their relative order. */
  lemma {:induction false} SortDescStable(votes: seq<AudienceVote>, p: int)
    ensures WithShare(SortDesc(votes), p) == WithShare(votes, p)
  {
    if votes != [] {
      SortDescStable(votes[1..], p);
      InsertDescStable(votes[0], SortDesc(votes[1..]), p);
    }
  }

  /**
   Ensure the shares sum to 100: when they do not, sort the votes by
   descending share and give the residual to the first one.
   */
  function Rebalance(votes: seq<AudienceVote>): (r: seq<AudienceVote>)
    ensures |r| == |votes|
    ensures multiset(OptionsOf(r)) == multiset(OptionsOf(votes))
    ensures votes != [] ==> SumPct(r) == 100
    ensures SumPct(votes) == 100 ==> r == votes
    ensures SumPct(votes) != 100 && votes != [] ==>
              && r[0].option == votes[FirstMaxIndex(votes)].option
              && r[0].percentage == votes[FirstMaxIndex(votes)].percentage + (100 - SumPct(votes))
              && multiset(r[1..]) == multiset(votes) - multiset{votes[FirstMaxIndex(votes)]}
              && SortedDesc(r[1..])
  {
    var currentSum := SumPct(votes);
    if currentSum != 100 && |votes| > 0 then
      var sorted := SortDesc(votes);
      SortDescAccounts(votes);
      SortDescHead(votes);
      SortDescSorted(votes);
      var top := sorted[0].(percentage := sorted[0].percentage + (100 - currentSum));
      assert sorted == [sorted[0]] + sorted[1..];
      assert ([top] + sorted[1..])[1..] == sorted[1..];
      assert SortedDesc(sorted[1..]) by {
        forall i, j | 0 <= i < j < |sorted| - 1
          ensures sorted[1..][i].percentage >= sorted[1..][j].percentage
        {
          assert sorted[1..][i] == sorted[i + 1] && sorted[1..][j] == sorted[j + 1];
        }
      }
      [top] + sorted[1..]
    else
      votes
  }

  /**
   Behind the adjusted leader, votes that tie keep their option order: the
   tail holds, share by share, the other votes in the order they came.
   */
  lemma RebalanceStable(votes: seq<AudienceVote>, p: int)
    requires votes != [] && SumPct(votes) != 100
    ensures var k := FirstMaxIndex(votes);
            WithShare(Rebalance(votes)[1..], p) == WithShare(votes[..k] + votes[k + 1..], p)
  {
    RebalanceTail(votes);
    SortDescTailStable(votes, p);
  }

  /** Behind its head, the sort lists the other votes of each share in their original order. */
  lemma SortDescTailStable(votes: seq<AudienceVote>, p: int)
    requires votes != []
    ensures var k := FirstMaxIndex(votes);
            WithShare(SortDesc(votes)[1..], p) == WithShare(votes[..k] + votes[k + 1..], p)
  {
    var k := FirstMaxIndex(votes);
    var sorted := SortDesc(votes);
    var head := if votes[k].percentage == p then [votes[k]] else [];
    var tail, rest := WithShare(sorted[1..], p), WithShare(votes[..k] + votes[k + 1..], p);
    SortDescHead(votes);
    SortDescStable(votes, p);
    WithoutFirstMax(votes, k, p);
    assert sorted == [sorted[0]] + sorted[1..];
    WithShareAppend([sorted[0]], sorted[1..], p);
    WithShareSingle(sorted[0], p);
    assert head + tail == head + rest;
    assert tail == (head + tail)[|head|..];
    assert rest == (head + rest)[|head|..];
  }

  lemma RebalanceTail(votes: seq<AudienceVote>)
    requires votes != [] && SumPct(votes) != 100
    ensures Rebalance(votes)[1..] == SortDesc(votes)[1..]
  {
  }

  lemma WithShareSingle(v: AudienceVote, p: int)
    ensures WithShare([v], p) == if v.percentage == p then [v] else []
  {
  }

  /** Taking out a vote that beats every earlier one leaves the votes with each share in order. */
  lemma WithoutFirstMax(votes: seq<AudienceVote>, k: nat, p: int)
    requires k < |votes|
    requires forall j :: 0 <= j < k ==> votes[j].percentage < votes[k].percentage
    ensures WithShare(votes, p) ==
              (if votes[k].percentage == p then [votes[k]] else []) + WithShare(votes[..k] + votes[k + 1..], p)
  {
    var a, m, b := votes[..k], [votes[k]], votes[k + 1..];
    assert votes == a + (m + b);
    WithShareAppend(a, m + b, p);
    WithShareAppend(m, b, p);
    WithShareAppend(a, b, p);
    WithShareSingle(votes[k], p);
    var head := if votes[k].percentage == p then [votes[k]] else [];
    assert WithShare(votes, p) == WithShare(a, p) + (head + WithShare(b, p));
    if p == votes[k].percentage {
      WithShareNone(a, p);
      assert WithShare(votes, p) == head + WithShare(b, p);
      assert WithShare(a + b, p) == [] + WithShare(b, p);
      assert [] + WithShare(b, p) == WithShare(b, p);
    } else {
      assert head == [];
      assert [] + WithShare(b, p) == WithShare(b, p);
      assert WithShare(votes, p) == WithShare(a, p) + WithShare(b, p);
      assert [] + WithShare(a + b, p) == WithShare(a + b, p);
    }
  }

  /** A sum of shares each at most m is at most |votes| * m. */
  lemma {:induction false} SumAtMost(votes: seq<AudienceVote>, m: int)
    requires forall i :: 0 <= i < |votes| ==> votes[i].percentage <= m
    ensures SumPct(votes) <= |votes| * m
  {
    if votes != [] {
      assert forall i :: 0 <= i < |votes[1..]| ==> votes[1..][i] == votes[i + 1];
      SumAtMost(votes[1..], m);
    }
  }

  /**
   The arithmetic behind RebalanceKeepsPercentages: when the largest of n
   shares is at least their average and their sum overshoots 100 by at most
   n/2, the other shares add up to at most 100, provided n * (n - 1) <= 200.
   */
  lemma ResidualBound(n: int, s: int, top: int)
    requires 1 <= n <= 14
    requires s <= n * top
    requires 2 * s <= 200 + n
    ensures s - top <= 100
  {
    assert n * (s - top) <= (n - 1) * s;
    assert 2 * ((n - 1) * s) <= (n - 1) * (200 + n);
    assert (n - 1) * (200 + n) <= 200 * n;
  }

  /**
   With up to 14 votes whose rounded shares overshoot 100 by at most half a
   point each, the residual leaves the largest share within [0, 100].
   */
  lemma RebalanceKeepsPercentages(votes: seq<AudienceVote>)
    requires 1 <= |votes| <= 14
    requires SharesIn(votes, 0, 100)
    requires 2 * SumPct(votes) <= 200 + |votes|
    ensures SharesIn(Rebalance(votes), 0, 100)
  {
    var s := SumPct(votes);
    var r := Rebalance(votes);
    if s != 100 {
      var top := votes[FirstMaxIndex(votes)].percentage;
      SumAtMost(votes, top);
      NonNegativeSharesBelowTotal(votes, 100);
      ResidualBound(|votes|, s, top);
      assert 0 <= r[0].percentage <= 100;
      forall i | 1 <= i < |r|
        ensures 0 <= r[i].percentage <= 100
      {
        assert r[i] == r[1..][i - 1];
        assert r[i] in multiset(r[1..]);
        assert r[i] in multiset(votes);
      }
    }
  }

  /** Dividing 2 * t * s <= 200 * t + n * t by t > 0. */
  lemma CancelTotal(t: int, s: int, n: int)
    requires t > 0
    requires 2 * t * s <= 200 * t + n * t
    ensures 2 * s <= 200 + n
  {
    assert t * (2 * s) <= t * (200 + n);
    if 2 * s > 200 + n {
      MulLeftMonotone(t, 200 + n + 1, 2 * s);
    }
  }

  /** The weights of a poll, totalled: positive as soon as there is one option. */
  lemma RawVotesTotal(options: seq<string>, correct: string, bases: seq<int>, bonuses: seq<int>)
    requires ValidDraws(options, bases, bonuses)
    requires options != []
    ensures SumPct(RawVotes(options, correct, bases, bonuses)) >= BaseMin
    ensures SharesIn(RawVotes(options, correct, bases, bonuses), 0, SumPct(RawVotes(options, correct, bases, bonuses)))
  {
    var raw := RawVotes(options, correct, bases, bonuses);
    NonNegativeSharesBelowTotal(raw, BaseMax + BonusMax);
  }

  /**
   The simulated audience poll for a question with the given options and
   correct answer, from the random draws of one poll.
   */
  function SimulateAudience(options: seq<string>, correct: string, bases: seq<int>, bonuses: seq<int>): (votes: seq<AudienceVote>)
    requires ValidDraws(options, bases, bonuses)
    ensures |votes| == |options|
    ensures multiset(OptionsOf(votes)) == multiset(options)
    ensures options != [] ==> SumPct(votes) == 100
  {
    if options == [] then []
    else
      var raw := RawVotes(options, correct, bases, bonuses);
      RawVotesTotal(options, correct, bases, bonuses);
      Rebalance(Normalize(raw, SumPct(raw)))
  }

  /**
   Every share of a poll over at most 14 options is a percentage (a
   question has 4), whatever the draws.
   */
  lemma AudienceSharesArePercentages(options: seq<string>, correct: string, bases: seq<int>, bonuses: seq<int>)
    requires ValidDraws(options, bases, bonuses)
    requires |options| <= 14
    ensures SharesIn(SimulateAudience(options, correct, bases, bonuses), 0, 100)
  {
    if options != [] {
      var raw := RawVotes(options, correct, bases, bonuses);
      var total := SumPct(raw);
      RawVotesTotal(options, correct, bases, bonuses);
      var normalized := Normalize(raw, total);
      NormalizeShares(raw, total);
      NormalizeSum(raw, total);
      CancelTotal(total, SumPct(normalized), |raw|);
      RebalanceKeepsPercentages(normalized);
    }
  }
}
