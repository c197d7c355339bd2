// Merging the two least weights of a table, and the lower bound this gives for every
// prefix code.  Weight 0 marks an index that takes no part (4xm.c clears merged entries).
module HuffmanBound {
  import opened Bits
  import opened Sums

  /** x comes before y when the table is scanned for its least weights. */
  predicate Before(ws: seq<nat>, x: nat, y: nat) {
    x < |ws| && y < |ws| && (ws[x] < ws[y] || (ws[x] == ws[y] && x < y))
  }

  ghost predicate IsFirst(ws: seq<nat>, i: nat) {
    && i < |ws| && ws[i] != 0
    && forall k :: 0 <= k < |ws| && ws[k] != 0 && k != i ==> Before(ws, i, k)
  }

  /** i is the first live index and j the first of the others. */
  ghost predicate TwoLeast(ws: seq<nat>, i: nat, j: nat) {
    && IsFirst(ws, i)
    && j < |ws| && j != i && ws[j] != 0
    && forall k :: 0 <= k < |ws| && ws[k] != 0 && k != i && k != j ==> Before(ws, j, k)
  }

  ghost predicate HasTwo(ws: seq<nat>) {
    exists i: nat, j: nat :: TwoLeast(ws, i, j)
  }

  lemma TwoLeastUnique(ws: seq<nat>, i: nat, j: nat, i': nat, j': nat)
    requires TwoLeast(ws, i, j) && TwoLeast(ws, i', j')
    ensures i == i' && j == j'
  {
    assert i != i' ==> Before(ws, i, i') && Before(ws, i', i);
    assert j != j' ==> Before(ws, j, j') && Before(ws, j', j);
  }

  lemma {:induction false} FirstExists(ws: seq<nat>, p: nat) returns (i: nat)
    requires p < |ws| && ws[p] != 0
    ensures IsFirst(ws, i)
    decreases ws[p], p
  {
    if k: nat :| k < |ws| && ws[k] != 0 && k != p && !Before(ws, p, k) {
      i := FirstExists(ws, k);
    } else {
      i := p;
    }
  }

  lemma TwoLeastExist(ws: seq<nat>, p: nat, q: nat)
    requires p < |ws| && q < |ws| && p != q && ws[p] != 0 && ws[q] != 0
    ensures HasTwo(ws)
  {
    var i := FirstExists(ws, p);
    var rest: seq<nat> := ws[i := 0];
    var j := FirstExists(rest, if i == p then q else p);
    forall k | 0 <= k < |ws| && ws[k] != 0 && k != i && k != j ensures Before(ws, j, k) {
      assert Before(rest, j, k);
    }
    assert TwoLeast(ws, i, j);
  }

  function Merge(ws: seq<nat>, n: nat, i: nat, j: nat): (r: seq<nat>)
    requires n < |ws| && i < |ws| && j < |ws|
    ensures |r| == |ws|
  {
    ws[i := 0][j := 0][n := ws[i] + ws[j]]
  }

  ghost predicate FreeFrom(ws: seq<nat>, n: nat) {
    n <= |ws| && forall k :: n <= k < |ws| ==> ws[k] == 0
  }

  /** Total of the sums made while merging the two least weights into indices n, n + 1, ... */
  ghost function MergeCost(ws: seq<nat>, n: nat): nat
    requires FreeFrom(ws, n)
    decreases |ws| - n
  {
    if n == |ws| || !HasTwo(ws) then 0
    else
      var i: nat, j: nat :| TwoLeast(ws, i, j);
      ws[i] + ws[j] + MergeCost(Merge(ws, n, i, j), n + 1)
  }

  lemma MergeCostStep(ws: seq<nat>, n: nat, i: nat, j: nat)
    requires FreeFrom(ws, n) && n < |ws| && TwoLeast(ws, i, j)
    ensures MergeCost(ws, n) == ws[i] + ws[j] + MergeCost(Merge(ws, n, i, j), n + 1)
  {
    forall x: nat, y: nat | TwoLeast(ws, x, y) ensures x == i && y == j {
      TwoLeastUnique(ws, i, j, x, y);
    }
  }

  function CostTerms(ws: seq<nat>, ls: seq<nat>): (r: seq<int>)
    requires |ws| == |ls|
  {
    seq(|ws|, i requires 0 <= i < |ws| => ws[i] * ls[i])
  }

  /** Sum of weight times length. */
  function Cost(ws: seq<nat>, ls: seq<nat>): int
    requires |ws| == |ls|
  {
    Sum(CostTerms(ws, ls))
  }

  function KraftTerms(ws: seq<nat>, ls: seq<nat>, L: int): (r: seq<int>)
    requires |ws| == |ls|
  {
    seq(|ws|, i requires 0 <= i < |ws| => if ws[i] == 0 then 0 else Pow2(L - ls[i]))
  }

  /** The Kraft sum of the live symbols, scaled by 2^L. */
  function Kraft(ws: seq<nat>, ls: seq<nat>, L: int): int
    requires |ws| == |ls|
  {
    Sum(KraftTerms(ws, ls, L))
  }

  ghost predicate Within(ws: seq<nat>, ls: seq<nat>, L: int)
    requires |ws| == |ls|
  {
    forall i :: 0 <= i < |ws| && ws[i] != 0 ==> ls[i] <= L
  }

  lemma CostUpdate(ws: seq<nat>, ls: seq<nat>, i: nat, w: nat, l: nat)
    requires |ws| == |ls| && i < |ws|
    ensures Cost(ws[i := w], ls[i := l]) == Cost(ws, ls) - ws[i] * ls[i] + w * l
  {
    assert CostTerms(ws[i := w], ls[i := l]) == CostTerms(ws, ls)[i := w * l];
    SumUpdate(CostTerms(ws, ls), i, w * l);
  }

  lemma KraftUpdate(ws: seq<nat>, ls: seq<nat>, L: int, i: nat, w: nat, l: nat)
    requires |ws| == |ls| && i < |ws|
    ensures Kraft(ws[i := w], ls[i := l], L) == Kraft(ws, ls, L)
      - (if ws[i] == 0 then 0 else Pow2(L - ls[i])) + (if w == 0 then 0 else Pow2(L - l))
  {
    var t := if w == 0 then 0 else Pow2(L - l);
    assert KraftTerms(ws[i := w], ls[i := l], L) == KraftTerms(ws, ls, L)[i := t];
    SumUpdate(KraftTerms(ws, ls, L), i, t);
  }

  lemma KraftRescale(ws: seq<nat>, ls: seq<nat>, L: int)
    requires |ws| == |ls| && 1 <= L && Within(ws, ls, L - 1)
    ensures Kraft(ws, ls, L) == 2 * Kraft(ws, ls, L - 1)
  {
    var t := KraftTerms(ws, ls, L - 1);
    forall i | 0 <= i < |ws|
      ensures KraftTerms(ws, ls, L)[i] == t[i] + t[i]
    {
    }
    SumPointwiseAdd(t, t, KraftTerms(ws, ls, L));
  }

  function Swap(ls: seq<nat>, i: nat, p: nat): (r: seq<nat>)
    requires i < |ls| && p < |ls|
    ensures |r| == |ls|
  {
    ls[i := ls[p]][p := ls[i]]
  }

  /** Giving the longer of two codes to the lighter symbol never costs more. */
  lemma SwapNotWorse(ws: seq<nat>, ls: seq<nat>, L: int, i: nat, p: nat)
    requires |ws| == |ls| && i < |ws| && p < |ws|
    requires ws[i] != 0 && ws[p] != 0 && ws[i] <= ws[p] && ls[i] <= ls[p]
    ensures Cost(ws, Swap(ls, i, p)) <= Cost(ws, ls)
    ensures Kraft(ws, Swap(ls, i, p), L) == Kraft(ws, ls, L)
  {
    var mid := ls[i := ls[p]];
    assert ws[i := ws[i]] == ws && ws[p := ws[p]] == ws;
    CostUpdate(ws, ls, i, ws[i], ls[p]);
    CostUpdate(ws, mid, p, ws[p], ls[i]);
    KraftUpdate(ws, ls, L, i, ws[i], ls[p]);
    KraftUpdate(ws, mid, L, p, ws[p], ls[i]);
    if i != p {
      assert (ws[p] - ws[i]) * (ls[p] - ls[i]) >= 0;
    } else {
      assert Swap(ls, i, p) == ls;
    }
  }

  ghost predicate DeepPair(ws: seq<nat>, ls: seq<nat>, L: int, p: nat, q: nat)
    requires |ws| == |ls|
  {
    p < |ws| && q < |ws| && p != q && ws[p] != 0 && ws[q] != 0 && ls[p] == L && ls[q] == L
  }

  /** Whenever two codes have the greatest length, the two least weights may as well have it. */
  lemma DeepenLeast(ws: seq<nat>, ls: seq<nat>, L: nat, i: nat, j: nat, p: nat, q: nat) returns (ls': seq<nat>)
    requires |ws| == |ls| && Within(ws, ls, L) && TwoLeast(ws, i, j) && DeepPair(ws, ls, L, p, q)
    ensures |ls'| == |ls| && Within(ws, ls', L) && DeepPair(ws, ls', L, i, j)
    ensures Cost(ws, ls') <= Cost(ws, ls) && Kraft(ws, ls', L) == Kraft(ws, ls, L)
  {
    var first := if ls[i] == L then i else if p != j then p else q;
    var mid := Swap(ls, i, first);
    SwapNotWorse(ws, ls, L, i, first);
    var second := if mid[j] == L then j else if mid[p] == L && p != i then p else q;
    ls' := Swap(mid, j, second);
    SwapNotWorse(ws, mid, L, j, second);
  }

  /** Lengths meeting Kraft's inequality cost at least the merge cost. */
  lemma {:induction false} KraftLowerBound(ws: seq<nat>, n: nat, ls: seq<nat>, L: nat)
    requires FreeFrom(ws, n) && |ws| == |ls| && Within(ws, ls, L) && Kraft(ws, ls, L) <= Pow2(L)
    ensures MergeCost(ws, n) <= Cost(ws, ls)
    decreases |ws| - n, L
  {
    if n == |ws| || !HasTwo(ws) {
      SumNonNegative(CostTerms(ws, ls));
      return;
    }
    var i: nat, j: nat :| TwoLeast(ws, i, j);
    if p: nat, q: nat :| DeepPair(ws, ls, L, p, q) {
      DeepPairNotAtRoot(ws, ls, L, p, q);
      var deep := DeepenLeast(ws, ls, L, i, j, p, q);
      MergeLengths(ws, n, deep, L, i, j);
      MergeCostStep(ws, n, i, j);
      KraftLowerBound(Merge(ws, n, i, j), n + 1, deep[n := L - 1], L);
    } else {
      var ls' := Shorten(ws, ls, L, i, j);
      KraftLowerBound(ws, n, ls', L - 1);
    }
  }

  /** Merging two symbols of length L into one of length L - 1 saves their joint weight. */
  lemma MergeLengths(ws: seq<nat>, n: nat, ls: seq<nat>, L: nat, i: nat, j: nat)
    requires |ws| == |ls| && FreeFrom(ws, n) && n < |ws|
    requires L > 0 && DeepPair(ws, ls, L, i, j) && Within(ws, ls, L)
    ensures Within(Merge(ws, n, i, j), ls[n := L - 1], L)
    ensures Kraft(Merge(ws, n, i, j), ls[n := L - 1], L) == Kraft(ws, ls, L)
    ensures Cost(Merge(ws, n, i, j), ls[n := L - 1]) == Cost(ws, ls) - ws[i] - ws[j]
  {
    var w1: seq<nat> := ws[i := 0];
    var w2: seq<nat> := w1[j := 0];
    assert ls[i := ls[i]] == ls && ls[j := ls[j]] == ls;
    CostUpdate(ws, ls, i, 0, ls[i]);
    CostUpdate(w1, ls, j, 0, ls[j]);
    CostUpdate(w2, ls, n, ws[i] + ws[j], L - 1);
    KraftUpdate(ws, ls, L, i, 0, ls[i]);
    KraftUpdate(w1, ls, L, j, 0, ls[j]);
    KraftUpdate(w2, ls, L, n, ws[i] + ws[j], L - 1);
    assert Pow2(L - L) == 1 && Pow2(L - (L - 1)) == 2 * Pow2(0);
    assert (ws[i] + ws[j]) * (L - 1) == ws[i] * L + ws[j] * L - ws[i] - ws[j];
  }

  lemma Shorten(ws: seq<nat>, ls: seq<nat>, L: nat, i: nat, j: nat) returns (ls': seq<nat>)
    requires |ws| == |ls| && Within(ws, ls, L) && Kraft(ws, ls, L) <= Pow2(L)
    requires TwoLeast(ws, i, j) && forall p: nat, q: nat :: !DeepPair(ws, ls, L, p, q)
    ensures 0 < L && |ls'| == |ws| && Within(ws, ls', L - 1) && Kraft(ws, ls', L - 1) <= Pow2(L - 1)
    ensures Cost(ws, ls') <= Cost(ws, ls)
  {
    if p: nat :| p < |ws| && ws[p] != 0 && ls[p] == L {
      KraftShorten(ws, ls, L, i, j, p);
      ls' := ls[p := L - 1];
    } else {
      KraftShallower(ws, ls, L, i);
      ls' := ls;
    }
  }

  lemma DeepPairNotAtRoot(ws: seq<nat>, ls: seq<nat>, L: nat, p: nat, q: nat)
    requires |ws| == |ls| && DeepPair(ws, ls, L, p, q) && Kraft(ws, ls, L) <= Pow2(L)
    ensures 0 < L
  {
    SumAtLeastTwo(KraftTerms(ws, ls, L), p, q);
  }

  /** A code that is alone at the greatest length can be shortened by a bit. */
  lemma KraftShorten(ws: seq<nat>, ls: seq<nat>, L: nat, i: nat, j: nat, p: nat)
    requires |ws| == |ls| && Within(ws, ls, L) && Kraft(ws, ls, L) <= Pow2(L)
    requires TwoLeast(ws, i, j) && p < |ws| && ws[p] != 0 && ls[p] == L
    requires forall q: nat :: !DeepPair(ws, ls, L, p, q)
    ensures 0 < L && Within(ws, ls[p := L - 1], L - 1)
    ensures Kraft(ws, ls[p := L - 1], L - 1) <= Pow2(L - 1)
    ensures Cost(ws, ls[p := L - 1]) <= Cost(ws, ls)
  {
    var other := if p == i then j else i;
    assert !DeepPair(ws, ls, L, p, other);
    var ls' := ls[p := L - 1];
    assert Within(ws, ls', L - 1) by {
      forall k | 0 <= k < |ws| && ws[k] != 0 ensures ls'[k] <= L - 1 {
        assert !DeepPair(ws, ls, L, p, k);
      }
    }
    assert ws[p := ws[p]] == ws;
    CostUpdate(ws, ls, p, ws[p], L - 1);
    KraftUpdate(ws, ls, L, p, ws[p], L - 1);
    KraftRescale(ws, ls', L);
    assert ws[p] * (L - 1) <= ws[p] * L;
  }

  lemma KraftShallower(ws: seq<nat>, ls: seq<nat>, L: nat, i: nat)
    requires |ws| == |ls| && i < |ws| && ws[i] != 0
    requires Within(ws, ls, L) && forall p :: 0 <= p < |ws| && ws[p] != 0 ==> ls[p] != L
    requires Kraft(ws, ls, L) <= Pow2(L)
    ensures L > 0 && Within(ws, ls, L - 1) && Kraft(ws, ls, L - 1) <= Pow2(L - 1)
  {
    assert ls[i] < L;
    KraftRescale(ws, ls, L);
  }


  // ---- Prefix codes ----

  type Code = seq<seq<bool>>

  function Lengths(code: Code): (r: seq<nat>)
    ensures |r| == |code|
  {
    seq(|code|, i requires 0 <= i < |code| => |code[i]|)
  }

  ghost predicate PrefixFree(ws: seq<nat>, code: Code)
    requires |ws| == |code|
  {
    forall i, j :: 0 <= i < |ws| && 0 <= j < |ws| && i != j && ws[i] != 0 && ws[j] != 0 ==> !(code[i] <= code[j])
  }

  function StartingWith(ws: seq<nat>, code: Code, b: bool): (r: seq<nat>)
    requires |ws| == |code|
    ensures |r| == |ws|
  {
    seq(|ws|, i requires 0 <= i < |ws| => if code[i] != [] && code[i][0] == b then ws[i] else 0)
  }

  function Tails(code: Code): (r: Code)
    ensures |r| == |code|
  {
    seq(|code|, i requires 0 <= i < |code| => if code[i] == [] then [] else code[i][1..])
  }

  lemma TailsPrefixFree(ws: seq<nat>, code: Code, b: bool)
    requires |ws| == |code| && PrefixFree(ws, code)
    ensures PrefixFree(StartingWith(ws, code, b), Tails(code))
  {
    var ws' := StartingWith(ws, code, b);
    forall i, j | 0 <= i < |ws| && 0 <= j < |ws| && i != j && ws'[i] != 0 && ws'[j] != 0
      ensures !(Tails(code)[i] <= Tails(code)[j])
    {
      assert !(code[i] <= code[j]);
      assert code[i] == [b] + Tails(code)[i] && code[j] == [b] + Tails(code)[j];
    }
  }

  /** An empty code word leaves no room for another. */
  lemma KraftOfEmptyWord(ws: seq<nat>, code: Code, L: nat, p: nat)
    requires |ws| == |code| && PrefixFree(ws, code) && p < |ws| && ws[p] != 0 && code[p] == []
    ensures Kraft(ws, Lengths(code), L) == Pow2(L)
  {
    var terms := KraftTerms(ws, Lengths(code), L);
    SumUpdate(terms, p, 0);
    var rest := terms[p := 0];
    forall k | 0 <= k < |rest| ensures rest[k] == 0 {
      assert code[p] <= code[k];
    }
    SumZero(rest);
  }

  lemma KraftSplit(ws: seq<nat>, code: Code, L: nat)
    requires |ws| == |code| && 0 < L
    requires forall p :: 0 <= p < |ws| && ws[p] != 0 ==> code[p] != []
    ensures Kraft(ws, Lengths(code), L) ==
      Kraft(StartingWith(ws, code, false), Lengths(Tails(code)), L - 1)
      + Kraft(StartingWith(ws, code, true), Lengths(Tails(code)), L - 1)
  {
    SumPointwiseAdd(KraftTerms(StartingWith(ws, code, false), Lengths(Tails(code)), L - 1),
                    KraftTerms(StartingWith(ws, code, true), Lengths(Tails(code)), L - 1),
                    KraftTerms(ws, Lengths(code), L));
  }

  /** Every prefix code meets Kraft's inequality. */
  lemma {:induction false} PrefixKraft(ws: seq<nat>, code: Code, L: nat)
    requires |ws| == |code| && PrefixFree(ws, code) && Within(ws, Lengths(code), L)
    ensures Kraft(ws, Lengths(code), L) <= Pow2(L)
    decreases L
  {
    if p :| 0 <= p < |ws| && ws[p] != 0 && code[p] == [] {
      KraftOfEmptyWord(ws, code, L, p);
    } else if L == 0 {
      forall p | 0 <= p < |ws| ensures ws[p] == 0 {
        assert Lengths(code)[p] == |code[p]|;
      }
      SumZero(KraftTerms(ws, Lengths(code), L));
    } else {
      KraftSplit(ws, code, L);
      TailsPrefixFree(ws, code, false);
      TailsPrefixFree(ws, code, true);
      PrefixKraft(StartingWith(ws, code, false), Tails(code), L - 1);
      PrefixKraft(StartingWith(ws, code, true), Tails(code), L - 1);
    }
  }

  lemma {:induction false} LongestCode(code: Code) returns (L: nat)
    ensures forall i :: 0 <= i < |code| ==> |code[i]| <= L
  {
    if code == [] {
      L := 0;
    } else {
      L := LongestCode(code[1..]);
      L := if |code[0]| <= L then L else |code[0]|;
      assert forall i :: 1 <= i < |code| ==> code[i] == code[1..][i - 1];
    }
  }

  /** No prefix code on the live symbols costs less than the merge cost. */
  lemma PrefixLowerBound(ws: seq<nat>, n: nat, code: Code)
    requires FreeFrom(ws, n) && |ws| == |code| && PrefixFree(ws, code)
    ensures MergeCost(ws, n) <= Cost(ws, Lengths(code))
  {
    var L := LongestCode(code);
    PrefixKraft(ws, code, L);
    KraftLowerBound(ws, n, Lengths(code), L);
  }

  // ---- Decoding ----

  /** The code words of a sequence of symbols, one after the other. */
  function Encode(code: Code, syms: seq<nat>): seq<bool>
    requires forall k :: 0 <= k < |syms| ==> syms[k] < |code|
  {
    if syms == [] then [] else code[syms[0]] + Encode(code, syms[1..])
  }

  ghost predicate Matches(ws: seq<nat>, code: Code, bits: seq<bool>, s: nat)
    requires |ws| == |code|
  {
    s < |ws| && ws[s] != 0 && code[s] != [] && code[s] <= bits
  }

  /** Repeatedly strips the code word the bits start with, until none matches. */
  ghost function Decode(ws: seq<nat>, code: Code, bits: seq<bool>): seq<nat>
    requires |ws| == |code|
    decreases |bits|
  {
    if s: nat :| Matches(ws, code, bits, s) then
      [s] + Decode(ws, code, bits[|code[s]|..])
    else []
  }

  lemma LiveWordsNonEmpty(ws: seq<nat>, code: Code, s: nat)
    requires |ws| == |code| && PrefixFree(ws, code) && HasTwo(ws) && s < |ws| && ws[s] != 0
    ensures code[s] != []
  {
    var i: nat, j: nat :| TwoLeast(ws, i, j);
    var other := if s == i then j else i;
    assert !(code[s] <= code[other]);
  }

  lemma PrefixesCompare(a: seq<bool>, b: seq<bool>, bits: seq<bool>)
    requires a <= bits && b <= bits
    ensures a <= b || b <= a
  {
    if |a| <= |b| {
      assert a == b[..|a|];
    } else {
      assert b == a[..|b|];
    }
  }

  /** Decoding undoes encoding, for every sequence of live symbols. */
  lemma {:induction false} DecodeEncode(ws: seq<nat>, code: Code, syms: seq<nat>)
    requires |ws| == |code| && PrefixFree(ws, code) && HasTwo(ws)
    requires forall k :: 0 <= k < |syms| ==> syms[k] < |code| && ws[syms[k]] != 0
    ensures Decode(ws, code, Encode(code, syms)) == syms
  {
    var bits := Encode(code, syms);
    if syms == [] {
      assert !exists s: nat :: Matches(ws, code, bits, s);
    } else {
      var s := syms[0];
      LiveWordsNonEmpty(ws, code, s);
      assert Matches(ws, code, bits, s);
      forall t: nat | Matches(ws, code, bits, t) ensures t == s {
        PrefixesCompare(code[t], code[s], bits);
      }
      assert bits[|code[s]|..] == Encode(code, syms[1..]);
      DecodeEncode(ws, code, syms[1..]);
    }
  }
}
