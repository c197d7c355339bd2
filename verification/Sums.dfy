// Sums over sequences and the few rearrangements of them the proofs need.
module Sums {
  function Sum(s: seq<int>): int {
    if s == [] then 0 else s[0] + Sum(s[1..])
  }

  lemma {:induction false} SumUpdate(s: seq<int>, i: nat, v: int)
    requires i < |s|
    ensures Sum(s[i := v]) == Sum(s) - s[i] + v
  {
    if i == 0 {
      assert s[i := v][1..] == s[1..];
    } else {
      assert s[i := v][1..] == s[1..][i - 1 := v];
      SumUpdate(s[1..], i - 1, v);
    }
  }

  lemma {:induction false} SumAppend(s: seq<int>, t: seq<int>)
    ensures Sum(s + t) == Sum(s) + Sum(t)
  {
    if s == [] {
      assert s + t == t;
    } else {
      assert (s + t)[1..] == s[1..] + t;
      SumAppend(s[1..], t);
    }
  }

  lemma {:induction false} SumNonNegative(s: seq<int>)
    requires forall k :: 0 <= k < |s| ==> 0 <= s[k]
    ensures 0 <= Sum(s)
  {
    if s == [] {
    } else {
      SumNonNegative(s[1..]);
    }
  }

  /** A sum of non-negative terms is at least any two of them. */
  lemma SumAtLeastTwo(s: seq<int>, i: nat, j: nat)
    requires i < |s| && j < |s| && i != j
    requires forall k :: 0 <= k < |s| ==> 0 <= s[k]
    ensures s[i] + s[j] <= Sum(s)
  {
    SumUpdate(s, i, 0);
    SumUpdate(s[i := 0], j, 0);
    SumNonNegative(s[i := 0][j := 0]);
  }

  lemma SumAtLeastOne(s: seq<int>, i: nat)
    requires i < |s|
    requires forall k :: 0 <= k < |s| ==> 0 <= s[k]
    ensures s[i] <= Sum(s)
  {
    SumUpdate(s, i, 0);
    SumNonNegative(s[i := 0]);
  }

  lemma {:induction false} SumPointwiseAdd(a: seq<int>, b: seq<int>, c: seq<int>)
    requires |a| == |b| == |c|
    requires forall k :: 0 <= k < |a| ==> c[k] == a[k] + b[k]
    ensures Sum(c) == Sum(a) + Sum(b)
  {
    if a == [] {
    } else {
      SumPointwiseAdd(a[1..], b[1..], c[1..]);
    }
  }

  lemma {:induction false} SumAtMost(s: seq<int>, bound: int)
    requires forall k :: 0 <= k < |s| ==> s[k] <= bound
    ensures Sum(s) <= |s| * bound
  {
    if s == [] {
    } else {
      SumAtMost(s[1..], bound);
    }
  }

  lemma {:induction false} SumZero(s: seq<int>)
    requires forall k :: 0 <= k < |s| ==> s[k] == 0
    ensures Sum(s) == 0
  {
    if s == [] {
    } else {
      SumZero(s[1..]);
    }
  }

  /** Emptying two entries into a third that was empty. */
  lemma SumOfMove(s: seq<int>, i: nat, j: nat, n: nat)
    requires i < |s| && j < |s| && n < |s| && i != j && i != n && j != n && s[n] == 0
    ensures Sum(s[i := 0][j := 0][n := s[i] + s[j]]) == Sum(s)
  {
    SumUpdate(s, i, 0);
    SumUpdate(s[i := 0], j, 0);
    SumUpdate(s[i := 0][j := 0], n, s[i] + s[j]);
  }
}
