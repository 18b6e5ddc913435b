/** The 50:50 lifeline: disable two incorrect options (App.tsx, handleUseFiftyFifty). */
module Elimination {
  import opened Types

  /** The elements of s, in order, that are not in drop (Array.prototype.filter). */
  function Without(s: seq<string>, drop: set<string>): (r: seq<string>)
    ensures forall x :: x in r <==> x in s && x !in drop
    ensures |r| <= |s|
  {
    if s == [] then []
    else (if s[0] in drop then [] else [s[0]]) + Without(s[1..], drop)
  }

  lemma {:induction false} WithoutKeepsDistinct(s: seq<string>, drop: set<string>)
    requires Distinct(s)
    ensures Distinct(Without(s, drop))
  {
    if s != [] {
      assert Distinct(s[1..]) by {
        forall i, j | 0 <= i < j < |s[1..]| ensures s[1..][i] != s[1..][j] {
          assert s[1..][i] == s[i + 1] && s[1..][j] == s[j + 1];
        }
      }
      WithoutKeepsDistinct(s[1..], drop);
      assert s[0] !in s[1..];
    }
  }

  lemma {:induction false} DistinctCardinality(s: seq<string>)
    requires Distinct(s)
    ensures |set x | x in s| == |s|
  {
    if s != [] {
      assert Distinct(s[1..]) by {
        forall i, j | 0 <= i < j < |s[1..]| ensures s[1..][i] != s[1..][j] {
          assert s[1..][i] == s[i + 1] && s[1..][j] == s[j + 1];
        }
      }
      DistinctCardinality(s[1..]);
      assert (set x | x in s) == {s[0]} + (set x | x in s[1..]);
      assert s[0] !in (set x | x in s[1..]);
    }
  }

  /** Filtering a duplicate-free list by a set of its own elements removes exactly that many. */
  lemma WithoutLength(s: seq<string>, drop: set<string>)
    requires Distinct(s)
    requires forall x :: x in drop ==> x in s
    ensures |Without(s, drop)| == |s| - |drop|
  {
    var r := Without(s, drop);
    WithoutKeepsDistinct(s, drop);
    DistinctCardinality(s);
    DistinctCardinality(r);
    var all := set x | x in s;
    var kept := set x | x in r;
    assert kept == all - drop;
    assert all == kept + drop;
    assert kept * drop == {};
  }

  /** The incorrect options, in their original order. */
  function Incorrect(q: Question): seq<string>
  {
    Without(q.options, {q.correctAnswer})
  }

  /** The shuffle's pick is a position among the incorrect options (none exist only when every option is correct). */
  predicate ValidPick(q: Question, pick: nat)
  {
    |Incorrect(q)| > 0 ==> pick < |Incorrect(q)|
  }

  /**
   The options 50:50 disables. The random shuffle of the incorrect options is
   replaced by `pick`, the position of the incorrect option it puts first:
   that option survives together with the correct answer.
   */
  function Eliminate(q: Question, pick: nat): (disabled: seq<string>)
    requires ValidPick(q, pick)
    ensures forall o :: o in disabled <==>
              && o in q.options
              && o != q.correctAnswer
              && (|Incorrect(q)| > 0 ==> o != Incorrect(q)[pick])
  {
    var keep := if |Incorrect(q)| > 0 then {q.correctAnswer, Incorrect(q)[pick]} else {q.correctAnswer};
    Without(q.options, keep)
  }

  /**
   For a well-formed question, 50:50 disables exactly two distinct options,
   neither the correct answer nor the surviving incorrect one, all of them
   options of the question.
   */
  lemma FiftyFiftyDisablesTwo(q: Question, pick: nat)
    requires WellFormedQuestion(q)
    requires ValidPick(q, pick)
    ensures |Incorrect(q)| == 3
    ensures |Eliminate(q, pick)| == 2
    ensures Distinct(Eliminate(q, pick))
    ensures q.correctAnswer !in Eliminate(q, pick)
    ensures Incorrect(q)[pick] !in Eliminate(q, pick)
    ensures forall o :: o in Eliminate(q, pick) ==> o in q.options
  {
    WithoutLength(q.options, {q.correctAnswer});
    var kept := Incorrect(q)[pick];
    WithoutLength(q.options, {q.correctAnswer, kept});
    WithoutKeepsDistinct(q.options, {q.correctAnswer, kept});
  }
}
