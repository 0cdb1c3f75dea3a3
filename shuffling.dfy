/*
 * Game.ShuffleDeck: the Fisher-Yates pass over the deck.  The random source
 * is replaced by the choices it would make: choices[i] is the j drawn by
 * random.Next(i + 1) when the loop is at index i, so 0 <= choices[i] <= i.
 */
module Shuffling {

  /** Choices for shuffling n cards: one per index, each at most its index
      (choices[0] is always 0; the loop never draws it). */
  predicate ValidChoices(choices: seq<nat>, n: nat)
  {
    |choices| == n && forall i :: 0 <= i < n ==> choices[i] <= i
  }

  /** The tuple assignment (s[j], s[i]) = (s[i], s[j]). */
  function Swap<T>(s: seq<T>, i: nat, j: nat): (r: seq<T>)
    requires i < |s| && j < |s|
    ensures |r| == |s| && r[i] == s[j] && r[j] == s[i]
    ensures forall k :: 0 <= k < |s| && k != i && k != j ==> r[k] == s[k]
  {
    s[i := s[j]][j := s[i]]
  }

  lemma SwapPermutes<T>(s: seq<T>, i: nat, j: nat)
    requires i < |s| && j < |s|
    ensures multiset(Swap(s, i, j)) == multiset(s)
  {
    if i != j {
      assert s == s[..i] + [s[i]] + s[i + 1..];
      assert s[i := s[j]] == s[..i] + [s[j]] + s[i + 1..];
    }
  }

  /** The loop's remaining iterations: swap index m - 1 with its choice, then
      continue below it, down to index 1. */
  function ShuffleSteps<T>(s: seq<T>, choices: seq<nat>, m: nat): (r: seq<T>)
    requires m <= |s| && m <= |choices|
    requires forall i :: 0 <= i < m ==> choices[i] <= i
    ensures |r| == |s|
    decreases m
  {
    if m <= 1 then s
    else ShuffleSteps(Swap(s, m - 1, choices[m - 1]), choices, m - 1)
  }

  /** The whole pass: for i from |s| - 1 down to 1, swap s[i] and s[choices[i]]. */
  function Shuffle<T>(s: seq<T>, choices: seq<nat>): (r: seq<T>)
    requires ValidChoices(choices, |s|)
    ensures |r| == |s|
  {
    ShuffleSteps(s, choices, |s|)
  }

  lemma {:induction false} ShuffleStepsPermutes<T>(s: seq<T>, choices: seq<nat>, m: nat)
    requires m <= |s| && m <= |choices|
    requires forall i :: 0 <= i < m ==> choices[i] <= i
    ensures |ShuffleSteps(s, choices, m)| == |s|
    ensures multiset(ShuffleSteps(s, choices, m)) == multiset(s)
    decreases m
  {
    if m > 1 {
      SwapPermutes(s, m - 1, choices[m - 1]);
      ShuffleStepsPermutes(Swap(s, m - 1, choices[m - 1]), choices, m - 1);
    }
  }

  /** ShuffleDeck keeps the deck's length and its multiset of cards: the result
      is a permutation of the input. */
  lemma ShufflePermutes<T>(s: seq<T>, choices: seq<nat>)
    requires ValidChoices(choices, |s|)
    ensures |Shuffle(s, choices)| == |s|
    ensures multiset(Shuffle(s, choices)) == multiset(s)
  {
    ShuffleStepsPermutes(s, choices, |s|);
  }

  /** The steps below index m never touch cards appended after the first m. */
  lemma {:induction false} ShuffleStepsAppend<T>(u: seq<T>, rest: seq<T>, choices: seq<nat>, m: nat)
    requires m <= |u| && m <= |choices|
    requires forall i :: 0 <= i < m ==> choices[i] <= i
    ensures ShuffleSteps(u + rest, choices, m) == ShuffleSteps(u, choices, m) + rest
    decreases m
  {
    if m > 1 {
      var j := choices[m - 1];
      assert Swap(u + rest, m - 1, j) == Swap(u, m - 1, j) + rest;
      ShuffleStepsAppend(Swap(u, m - 1, j), rest, choices, m - 1);
    }
  }

  /** The steps below index m never touch the cards from index m on. */
  lemma ShuffleStepsPrefix<T>(s: seq<T>, choices: seq<nat>, m: nat)
    requires m <= |s| && m <= |choices|
    requires forall i :: 0 <= i < m ==> choices[i] <= i
    ensures ShuffleSteps(s, choices, m) == ShuffleSteps(s[..m], choices, m) + s[m..]
  {
    assert s == s[..m] + s[m..];
    ShuffleStepsAppend(s[..m], s[m..], choices, m);
  }

  /** The steps below index m only use the choices below index m. */
  lemma {:induction false} ShuffleStepsChoices<T>(s: seq<T>, c1: seq<nat>, c2: seq<nat>, m: nat)
    requires m <= |s| && m <= |c1| && m <= |c2| && c1[..m] == c2[..m]
    requires forall i :: 0 <= i < m ==> c1[i] <= i
    ensures forall i :: 0 <= i < m ==> c2[i] <= i
    ensures ShuffleSteps(s, c1, m) == ShuffleSteps(s, c2, m)
    decreases m
  {
    assert forall i :: 0 <= i < m ==> c1[i] == c1[..m][i] == c2[..m][i] == c2[i];
    if m > 1 {
      assert c1[..m - 1] == c2[..m - 1] by {
        assert c1[..m - 1] == c1[..m][..m - 1];
        assert c2[..m - 1] == c2[..m][..m - 1];
      }
      ShuffleStepsChoices(Swap(s, m - 1, c1[m - 1]), c1, c2, m - 1);
    }
  }

  /** Shuffling with one more choice on top: after the first swap has fixed
      the top card, the rest is a shuffle of the cards below it. */
  lemma ShuffleAfterTopSwap<T>(t: seq<T>, c': seq<nat>, j: nat)
    requires 2 <= |t| && j < |t| && ValidChoices(c', |t| - 1)
    ensures ValidChoices(c' + [j], |t|)
    ensures ShuffleSteps(t, c' + [j], |t| - 1) == Shuffle(t[..|t| - 1], c') + [t[|t| - 1]]
  {
    var n := |t|;
    var choices := c' + [j];
    assert choices[..n - 1] == c';
    assert t[n - 1..] == [t[n - 1]];
    ShuffleStepsPrefix(t, choices, n - 1);
    ShuffleStepsChoices(t[..n - 1], c', choices, n - 1);
  }

  /** An element of the multiset of s sits at some index of s. */
  lemma IndexOfElement<T>(s: seq<T>, x: T) returns (j: nat)
    requires x in multiset(s)
    ensures j < |s| && s[j] == x
  {
    assert x in s;
    j :| 0 <= j < |s| && s[j] == x;
  }

  /** Removing the same last element from two permutations of each other. */
  lemma PermutationDropLast<T>(a: seq<T>, b: seq<T>)
    requires multiset(a) == multiset(b) && |a| > 0 && |b| > 0
    requires a[|a| - 1] == b[|b| - 1]
    ensures multiset(a[..|a| - 1]) == multiset(b[..|b| - 1])
  {
    var x := a[|a| - 1];
    var a', b' := a[..|a| - 1], b[..|b| - 1];
    assert multiset(a) == multiset(a') + multiset{x} by {
      assert a == a' + [x];
    }
    assert multiset(b) == multiset(b') + multiset{x} by {
      assert b == b' + [x];
    }
    forall y
      ensures multiset(a')[y] == multiset(b')[y]
    {
      assert (multiset(a') + multiset{x})[y] == (multiset(b') + multiset{x})[y];
    }
  }

  /** Every ordering of the deck is reachable: for each permutation p of s
      some valid choices make the shuffle produce exactly p. */
  lemma {:induction false} ShuffleReachesEveryPermutation<T>(s: seq<T>, p: seq<T>)
    requires multiset(p) == multiset(s)
    ensures exists choices :: ValidChoices(choices, |s|) && Shuffle(s, choices) == p
    decreases |s|
  {
    assert |p| == |multiset(p)| == |multiset(s)| == |s|;
    var n := |s|;
    if n == 0 {
      assert ValidChoices([], 0) && Shuffle(s, []) == p;
    } else if n == 1 {
      assert p[0] in multiset(s);
      assert s == [p[0]] && s == p;
      assert ValidChoices([0], 1) && Shuffle(s, [0]) == p;
    } else {
      var j := IndexOfElement(s, p[n - 1]);
      var t := Swap(s, n - 1, j);
      SwapPermutes(s, n - 1, j);
      PermutationDropLast(t, p);
      ShuffleReachesEveryPermutation(t[..n - 1], p[..n - 1]);
      var c': seq<nat> :| ValidChoices(c', n - 1) && Shuffle(t[..n - 1], c') == p[..n - 1];
      ShuffleReachStep(s, p, j, c');
    }
  }

  lemma ShuffleReachStep<T>(s: seq<T>, p: seq<T>, j: nat, c': seq<nat>)
    requires 2 <= |s| == |p| && j < |s| && s[j] == p[|p| - 1]
    requires ValidChoices(c', |s| - 1)
    requires Shuffle(Swap(s, |s| - 1, j)[..|s| - 1], c') == p[..|p| - 1]
    ensures ValidChoices(c' + [j], |s|) && Shuffle(s, c' + [j]) == p
  {
    var n := |s|;
    var t := Swap(s, n - 1, j);
    ShuffleAfterTopSwap(t, c', j);
    assert p == p[..n - 1] + [p[n - 1]];
    assert Shuffle(s, c' + [j]) == ShuffleSteps(t, c' + [j], n - 1);
  }
}
