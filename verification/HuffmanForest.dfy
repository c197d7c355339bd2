// The forest that read_huffman_tables keeps in the arrays frequency, up and flag, and what
// holds of it once the merge loop has stopped.
module HuffmanForest {
  import opened Bits
  import opened Sums
  import opened HuffmanBound

  const SYMBOLS: nat := 257
  const SIZE: nat := 512

  /** freq, up and flag are the source's arrays; weight remembers each entry's frequency before it was merged. */
  datatype Forest = Forest(freq: seq<nat>, up: seq<int>, flag: seq<nat>, weight: seq<nat>)

  ghost predicate UpLinks(up: seq<int>) {
    forall k :: 0 <= k < |up| ==> up[k] == -1 || (k < up[k] < |up| && SYMBOLS <= up[k])
  }

  ghost predicate Shape(F: Forest) {
    && |F.freq| == |F.up| == |F.flag| == |F.weight| == SIZE
    && UpLinks(F.up)
  }

  /** No entry has two children on the same side. */
  ghost predicate OneChildPerSide(F: Forest)
    requires Shape(F)
  {
    forall x, y :: 0 <= x < SIZE && 0 <= y < SIZE && x != y && F.up[x] == F.up[y] && F.up[x] != -1 ==>
      F.flag[x] != F.flag[y]
  }

  ghost predicate Used(F: Forest, n: nat)
    requires Shape(F)
  {
    forall k :: 0 <= k < SIZE ==> F.up[k] < n && (n <= k ==> F.weight[k] == 0)
  }

  /** Live entries are the roots among the entries ever used. */
  ghost predicate Roots(F: Forest)
    requires Shape(F)
  {
    forall k :: 0 <= k < SIZE ==>
      && F.freq[k] == (if F.up[k] == -1 then F.weight[k] else 0)
      && (F.up[k] != -1 ==> F.weight[k] != 0 && F.flag[k] <= 1)
  }

  ghost predicate ParentsUsed(F: Forest)
    requires Shape(F)
  {
    forall k, p :: 0 <= k < SIZE && 0 <= p < SIZE && F.up[k] == p ==> F.weight[p] != 0
  }

  ghost predicate Valid(F: Forest, n: nat) {
    && SYMBOLS <= n <= SIZE
    && Shape(F) && Used(F, n) && Roots(F) && ParentsUsed(F) && OneChildPerSide(F)
  }

  function Join(F: Forest, n: nat, i: nat, j: nat): Forest
    requires |F.freq| == |F.up| == |F.flag| == |F.weight|
    requires n < |F.freq| && i < |F.freq| && j < |F.freq|
  {
    Forest(Merge(F.freq, n, i, j), F.up[i := n][j := n], F.flag[i := 0][j := 1],
           F.weight[n := F.freq[i] + F.freq[j]])
  }

  lemma ValidIsFree(F: Forest, n: nat)
    requires Valid(F, n)
    ensures FreeFrom(F.freq, n)
  {
  }

  lemma JoinValid(F: Forest, n: nat, i: nat, j: nat)
    requires Valid(F, n) && n < SIZE && TwoLeast(F.freq, i, j)
    ensures Valid(Join(F, n, i, j), n + 1)
  {
    assert i < n && j < n && F.up[i] == -1 && F.up[j] == -1;
    var F' := Join(F, n, i, j);
    assert UpLinks(F'.up);
    assert Used(F', n + 1);
    assert Roots(F');
    forall x, y | 0 <= x < SIZE && 0 <= y < SIZE && x != y && F'.up[x] == F'.up[y] && F'.up[x] != -1
      ensures F'.flag[x] != F'.flag[y]
    {
      assert x != i && x != j ==> F.up[x] < n;
      assert y != i && y != j ==> F.up[y] < n;
    }
  }

  /** Merged entries are no heavier than live ones, and weights grow at least like Fibonacci numbers going up. */
  ghost predicate Balanced(F: Forest)
    requires Shape(F)
  {
    && MergedAreLightest(F)
    && (forall c, p :: 0 <= c < SIZE && 0 <= p < SIZE && F.up[c] == p ==> F.weight[c] < F.weight[p])
    && GrowsLikeFibonacci(F)
  }

  ghost predicate MergedAreLightest(F: Forest)
    requires Shape(F)
  {
    forall c, x :: 0 <= c < SIZE && 0 <= x < SIZE && F.up[c] != -1 && F.freq[x] != 0 ==> F.weight[c] <= F.freq[x]
  }

  /** A grandparent weighs at least its child and that child's child together. */
  ghost predicate GrowsLikeFibonacci(F: Forest)
    requires Shape(F)
  {
    forall c, p, q :: 0 <= c < SIZE && 0 <= p < SIZE && 0 <= q < SIZE && F.up[c] == p && F.up[p] == q ==>
      F.weight[p] + F.weight[c] <= F.weight[q]
  }

  lemma JoinBalanced(F: Forest, n: nat, i: nat, j: nat)
    requires Valid(F, n) && n < SIZE && TwoLeast(F.freq, i, j) && Balanced(F)
    ensures Valid(Join(F, n, i, j), n + 1) && Balanced(Join(F, n, i, j))
  {
    JoinValid(F, n, i, j);
    assert i < n && j < n;
    JoinLightest(F, n, i, j);
    JoinFibonacci(F, n, i, j);
  }

  lemma JoinLightest(F: Forest, n: nat, i: nat, j: nat)
    requires Valid(F, n) && n < SIZE && TwoLeast(F.freq, i, j) && Balanced(F) && Shape(Join(F, n, i, j))
    ensures MergedAreLightest(Join(F, n, i, j))
  {
    var F' := Join(F, n, i, j);
    assert Before(F.freq, i, j);
    forall c, x | 0 <= c < SIZE && 0 <= x < SIZE && F'.up[c] != -1 && F'.freq[x] != 0
      ensures F'.weight[c] <= F'.freq[x]
    {
      assert x != n ==> F'.freq[x] == F.freq[x] && Before(F.freq, j, x);
      assert c != i && c != j ==> F.weight[c] <= F.freq[i];
    }
  }

  lemma JoinFibonacci(F: Forest, n: nat, i: nat, j: nat)
    requires Valid(F, n) && n < SIZE && TwoLeast(F.freq, i, j) && Balanced(F) && i < n && j < n
    ensures Shape(Join(F, n, i, j)) && GrowsLikeFibonacci(Join(F, n, i, j))
  {
    var F' := Join(F, n, i, j);
    forall c, p, q | 0 <= c < SIZE && 0 <= p < SIZE && 0 <= q < SIZE && F'.up[c] == p && F'.up[p] == q
      ensures F'.weight[p] + F'.weight[c] <= F'.weight[q]
    {
      JoinFibonacciAt(F, n, i, j, c, p, q);
    }
  }

  lemma JoinFibonacciAt(F: Forest, n: nat, i: nat, j: nat, c: nat, p: nat, q: nat)
    requires Valid(F, n) && n < SIZE && TwoLeast(F.freq, i, j) && MergedAreLightest(F) && GrowsLikeFibonacci(F)
    requires i < n && j < n && c < SIZE && p < SIZE && q < SIZE
    requires var F' := Join(F, n, i, j); F'.up[c] == p && F'.up[p] == q
    ensures var F' := Join(F, n, i, j); F'.weight[p] + F'.weight[c] <= F'.weight[q]
  {
    assert F.up[n] == -1 && F.up[i] == -1 && F.up[j] == -1;
    assert p != n;
    assert c != i && c != j && F.up[c] == p && p < n;
    if p == i || p == j {
      assert F.weight[c] <= F.freq[i] && F.weight[c] <= F.freq[j];
    } else {
      assert F.up[p] == q && q < n;
    }
  }

  lemma SumMerge(ws: seq<nat>, n: nat, i: nat, j: nat)
    requires n < |ws| && i < |ws| && j < |ws| && i != j && i != n && j != n && ws[n] == 0
    ensures Sum(Merge(ws, n, i, j)) == Sum(ws)
  {
    SumOfMove(ws, i, j, n);
  }

  ghost predicate SameBelow(a: seq<nat>, b: seq<nat>, n: nat) {
    n <= |a| && n <= |b| && a[..n] == b[..n]
  }

  lemma JoinKeeps(F: Forest, n: nat, i: nat, j: nat)
    requires Valid(F, n) && n < SIZE && TwoLeast(F.freq, i, j)
    ensures Sum(Join(F, n, i, j).freq) == Sum(F.freq)
    ensures SameBelow(Join(F, n, i, j).weight, F.weight, n)
  {
    assert i < n && j < n;
    SumMerge(F.freq, n, i, j);
  }

  lemma SameBelowTrans(a: seq<nat>, b: seq<nat>, c: seq<nat>, n: nat)
    requires SameBelow(a, b, n + 1) && SameBelow(b, c, n)
    ensures SameBelow(a, c, n)
  {
    assert a[..n] == a[..n + 1][..n] && b[..n] == b[..n + 1][..n];
  }

  /** Links made by the merge loop are never changed again. */
  ghost predicate LinksKept(F: Forest, G: Forest) {
    && |F.up| == |G.up| == |F.flag| == |G.flag|
    && forall x :: 0 <= x < |F.up| && F.up[x] != -1 ==> G.up[x] == F.up[x] && G.flag[x] == F.flag[x]
  }

  /** What any number of merges keeps: the total weight, older weights and links, and the balance. */
  ghost predicate Onward(F: Forest, n: nat, G: Forest) {
    && Shape(F) && Shape(G)
    && (Balanced(F) ==> Balanced(G))
    && Sum(G.freq) == Sum(F.freq)
    && SameBelow(G.weight, F.weight, n)
    && LinksKept(F, G)
  }

  lemma OnwardJoin(F: Forest, n: nat, i: nat, j: nat)
    requires Valid(F, n) && n < SIZE && TwoLeast(F.freq, i, j)
    ensures Valid(Join(F, n, i, j), n + 1) && Onward(F, n, Join(F, n, i, j))
  {
    JoinValid(F, n, i, j);
    JoinKeeps(F, n, i, j);
    if Balanced(F) { JoinBalanced(F, n, i, j); }
    assert F.up[i] == -1 && F.up[j] == -1;
  }

  lemma OnwardTrans(F: Forest, n: nat, F': Forest, G: Forest)
    requires Onward(F, n, F') && Onward(F', n + 1, G)
    ensures Onward(F, n, G)
  {
    SameBelowTrans(G.weight, F'.weight, F.weight, n);
  }

  /** The forest when the merge loop stops. */
  ghost function Finish(F: Forest, n: nat): (G: Forest)
    requires Valid(F, n)
    ensures Valid(G, SIZE) && Onward(F, n, G)
    decreases SIZE - n
  {
    if n == SIZE || !HasTwo(F.freq) then F
    else
      var i: nat, j: nat :| TwoLeast(F.freq, i, j);
      OnwardJoin(F, n, i, j);
      var G := Finish(Join(F, n, i, j), n + 1);
      OnwardTrans(F, n, Join(F, n, i, j), G);
      G
  }

  lemma FinishStep(F: Forest, n: nat, i: nat, j: nat)
    requires Valid(F, n) && n < SIZE && TwoLeast(F.freq, i, j)
    ensures Valid(Join(F, n, i, j), n + 1) && Finish(F, n) == Finish(Join(F, n, i, j), n + 1)
  {
    JoinValid(F, n, i, j);
    forall x: nat, y: nat | TwoLeast(F.freq, x, y) ensures x == i && y == j {
      TwoLeastUnique(F.freq, i, j, x, y);
    }
  }

  // ---- Code words ----

  /** The code word of x, first bit first: the flags met going down from the root. */
  function Path(F: Forest, x: nat): (r: seq<bool>)
    requires Shape(F) && x < SIZE
    ensures |r| < SIZE - x
    decreases SIZE - x
  {
    if F.up[x] == -1 then [] else Path(F, F.up[x]) + [F.flag[x] == 1]
  }

  function Depths(F: Forest): (r: seq<nat>)
    requires Shape(F)
    ensures |r| == SIZE
  {
    seq(SIZE, x requires 0 <= x < SIZE => |Path(F, x)|)
  }

  /** What one merge does to the cost and the Kraft sum, measured with the final code lengths. */
  lemma JoinCost(ws: seq<nat>, n: nat, i: nat, j: nat, ds: seq<nat>)
    requires FreeFrom(ws, n) && n < |ws| && TwoLeast(ws, i, j)
    requires |ds| == |ws| && ds[i] == ds[n] + 1 && ds[j] == ds[n] + 1
    ensures Cost(ws, ds) == Cost(Merge(ws, n, i, j), ds) + ws[i] + ws[j]
  {
    var w1: seq<nat> := ws[i := 0];
    var w2: seq<nat> := w1[j := 0];
    assert ds[i := ds[i]] == ds && ds[j := ds[j]] == ds && ds[n := ds[n]] == ds;
    CostUpdate(ws, ds, i, 0, ds[i]);
    CostUpdate(w1, ds, j, 0, ds[j]);
    CostUpdate(w2, ds, n, ws[i] + ws[j], ds[n]);
    OneDeeper(ws[i], ws[j], ds[n]);
  }

  lemma OneDeeper(a: int, b: int, d: int)
    ensures a * (d + 1) + b * (d + 1) == (a + b) * d + a + b
  {
    assert a * (d + 1) == a * d + a && b * (d + 1) == b * d + b;
    assert (a + b) * d == a * d + b * d;
  }

  lemma JoinKraft(ws: seq<nat>, n: nat, i: nat, j: nat, ds: seq<nat>, L: nat)
    requires FreeFrom(ws, n) && n < |ws| && TwoLeast(ws, i, j)
    requires |ds| == |ws| && ds[i] == ds[n] + 1 && ds[j] == ds[n] + 1 && ds[n] < L
    ensures Kraft(ws, ds, L) == Kraft(Merge(ws, n, i, j), ds, L)
  {
    var t := KraftTerms(ws, ds, L);
    assert t[i] + t[j] == Pow2(L - ds[n]);
    assert KraftTerms(Merge(ws, n, i, j), ds, L) == t[i := 0][j := 0][n := t[i] + t[j]];
    SumOfMove(t, i, j, n);
  }

  /** A child's code word is one bit longer than its parent's. */
  lemma DepthOfChild(G: Forest, x: nat)
    requires Shape(G) && x < SIZE && G.up[x] != -1
    ensures Depths(G)[x] == Depths(G)[G.up[x]] + 1
  {
  }

  lemma {:induction false} FinishSums(F: Forest, n: nat, G: Forest)
    requires Valid(F, n) && FreeFrom(F.freq, n) && G == Finish(F, n)
    ensures Cost(F.freq, Depths(G)) == MergeCost(F.freq, n) + Cost(G.freq, Depths(G))
    ensures Kraft(F.freq, Depths(G), SIZE) == Kraft(G.freq, Depths(G), SIZE)
    decreases SIZE - n
  {
    if n != SIZE && HasTwo(F.freq) {
      var i: nat, j: nat :| TwoLeast(F.freq, i, j);
      var next := n + 1;
      MergeStep(F, n, next, G, i, j);
      SumsStep(F, n, G, i, j);
      FinishSums(Join(F, n, i, j), next, G);
    }
  }

  /** One merge of the loop. */
  lemma MergeStep(F: Forest, n: nat, next: nat, G: Forest, i: nat, j: nat)
    requires Valid(F, n) && FreeFrom(F.freq, n) && next == n + 1 <= SIZE && TwoLeast(F.freq, i, j) && G == Finish(F, n)
    ensures Valid(Join(F, n, i, j), next) && G == Finish(Join(F, n, i, j), next)
    ensures FreeFrom(Join(F, n, i, j).freq, next) && LinksKept(Join(F, n, i, j), G)
    ensures MergeCost(F.freq, n) == F.freq[i] + F.freq[j] + MergeCost(Join(F, n, i, j).freq, next)
  {
    FinishStep(F, n, i, j);
    MergeCostStep(F.freq, n, i, j);
  }

  /** What it does to the sums, measured with the code lengths of the finished forest G. */
  lemma SumsStep(F: Forest, n: nat, G: Forest, i: nat, j: nat)
    requires Valid(F, n) && FreeFrom(F.freq, n) && n < SIZE && TwoLeast(F.freq, i, j)
    requires Shape(G) && LinksKept(Join(F, n, i, j), G)
    ensures Cost(F.freq, Depths(G)) == Cost(Join(F, n, i, j).freq, Depths(G)) + F.freq[i] + F.freq[j]
    ensures Kraft(F.freq, Depths(G), SIZE) == Kraft(Join(F, n, i, j).freq, Depths(G), SIZE)
  {
    JoinedDepths(F, n, G, i, j);
    JoinSums(F.freq, n, i, j, Depths(G));
  }

  lemma JoinSums(ws: seq<nat>, n: nat, i: nat, j: nat, ds: seq<nat>)
    requires FreeFrom(ws, n) && n < |ws| && TwoLeast(ws, i, j)
    requires |ds| == |ws| && ds[i] == ds[n] + 1 && ds[j] == ds[n] + 1 && ds[n] < SIZE
    ensures Cost(ws, ds) == Cost(Merge(ws, n, i, j), ds) + ws[i] + ws[j]
    ensures Kraft(ws, ds, SIZE) == Kraft(Merge(ws, n, i, j), ds, SIZE)
  {
    JoinCost(ws, n, i, j, ds);
    JoinKraft(ws, n, i, j, ds, SIZE);
  }

  /** The two entries merged end one bit deeper than the entry made of them. */
  lemma JoinedDepths(F: Forest, n: nat, G: Forest, i: nat, j: nat)
    requires Valid(F, n) && n < SIZE && TwoLeast(F.freq, i, j) && Shape(G) && LinksKept(Join(F, n, i, j), G)
    ensures Depths(G)[i] == Depths(G)[j] == Depths(G)[n] + 1 && Depths(G)[n] < SIZE
  {
    JoinedLinks(F, n, G, i, j);
    DepthOfChild(G, i);
    DepthOfChild(G, j);
  }

  lemma JoinedLinks(F: Forest, n: nat, G: Forest, i: nat, j: nat)
    requires Valid(F, n) && n < SIZE && TwoLeast(F.freq, i, j) && LinksKept(Join(F, n, i, j), G)
    ensures G.up[i] == n && G.up[j] == n
  {
    assert Join(F, n, i, j).up[i] == n && Join(F, n, i, j).up[j] == n;
  }

  // ---- Counting roots ----

  function Indicator(ws: seq<nat>): (r: seq<int>)
    ensures |r| == |ws|
  {
    seq(|ws|, i requires 0 <= i < |ws| => if ws[i] == 0 then 0 else 1)
  }

  /** The number of live entries. */
  function Count(ws: seq<nat>): int {
    Sum(Indicator(ws))
  }

  lemma CountUpdate(ws: seq<nat>, i: nat, w: nat)
    requires i < |ws|
    ensures Count(ws[i := w]) == Count(ws) - (if ws[i] == 0 then 0 else 1) + (if w == 0 then 0 else 1)
  {
    var b := if w == 0 then 0 else 1;
    assert Indicator(ws[i := w]) == Indicator(ws)[i := b];
    SumUpdate(Indicator(ws), i, b);
  }

  lemma CountMerge(ws: seq<nat>, n: nat, i: nat, j: nat)
    requires TwoLeast(ws, i, j) && n < |ws| && ws[n] == 0
    ensures Count(Merge(ws, n, i, j)) == Count(ws) - 1
  {
    var w1: seq<nat> := ws[i := 0];
    var w2: seq<nat> := w1[j := 0];
    CountUpdate(ws, i, 0);
    CountUpdate(w1, j, 0);
    CountUpdate(w2, n, ws[i] + ws[j]);
  }

  lemma CountOfTwo(ws: seq<nat>)
    ensures HasTwo(ws) <==> Count(ws) >= 2
  {
    if HasTwo(ws) {
      var i: nat, j: nat :| TwoLeast(ws, i, j);
      SumAtLeastTwo(Indicator(ws), i, j);
    } else if p: nat :| p < |ws| && ws[p] != 0 {
      CountUpdate(ws, p, 0);
      var rest: seq<nat> := ws[p := 0];
      forall q | 0 <= q < |rest| ensures Indicator(rest)[q] == 0 {
        if q != p && ws[q] != 0 { TwoLeastExist(ws, p, q); }
      }
      SumZero(Indicator(rest));
    } else {
      SumZero(Indicator(ws));
    }
  }

  /** There are SIZE - n merges left: that many roots go, as long as one remains. */
  lemma {:induction false} FinishCount(F: Forest, n: nat, G: Forest)
    requires Valid(F, n) && Count(F.freq) >= 1 && G == Finish(F, n)
    ensures Count(G.freq) == if Count(F.freq) <= SIZE - n + 1 then 1 else Count(F.freq) - (SIZE - n)
    decreases SIZE - n
  {
    CountOfTwo(F.freq);
    if n != SIZE && HasTwo(F.freq) {
      var F' := OneMerge(F, n);
      FinishCount(F', n + 1, G);
    }
  }

  lemma OneMerge(F: Forest, n: nat) returns (F': Forest)
    requires Valid(F, n) && n < SIZE && HasTwo(F.freq)
    ensures Valid(F', n + 1) && Finish(F, n) == Finish(F', n + 1) && Count(F'.freq) == Count(F.freq) - 1
  {
    var i: nat, j: nat :| TwoLeast(F.freq, i, j);
    F' := Join(F, n, i, j);
    FinishStep(F, n, i, j);
    ValidIsFree(F, n);
    CountMerge(F.freq, n, i, j);
  }

  /** Roots have empty code words, so they cost nothing and each fills the Kraft sum once. */
  lemma RootSums(G: Forest)
    requires Valid(G, SIZE)
    ensures Cost(G.freq, Depths(G)) == 0
    ensures Kraft(G.freq, Depths(G), SIZE) == Count(G.freq) * Pow2(SIZE)
  {
    SumZero(CostTerms(G.freq, Depths(G)));
    SumScaled(Indicator(G.freq), KraftTerms(G.freq, Depths(G), SIZE), Pow2(SIZE));
  }

  lemma {:induction false} SumScaled(a: seq<int>, b: seq<int>, c: int)
    requires |a| == |b| && forall k :: 0 <= k < |a| ==> b[k] == (if a[k] == 0 then 0 else c) && 0 <= a[k] <= 1
    ensures Sum(b) == Sum(a) * c
  {
    if a == [] {
    } else {
      SumScaled(a[1..], b[1..], c);
    }
  }

  // ---- Prefix-freeness of a single tree ----

  lemma {:induction false} SamePath(G: Forest, x: nat, y: nat)
    requires Valid(G, SIZE) && !HasTwo(G.freq)
    requires x < SIZE && y < SIZE && G.weight[x] != 0 && G.weight[y] != 0
    requires Path(G, x) == Path(G, y)
    ensures x == y
    decreases SIZE - x
  {
    if Path(G, x) == [] {
      if x != y { TwoLeastExist(G.freq, x, y); }
    } else {
      var px, py := Path(G, G.up[x]), Path(G, G.up[y]);
      assert px == Path(G, x)[..|px|] && py == Path(G, y)[..|py|];
      SamePath(G, G.up[x], G.up[y]);
      assert Path(G, x)[|px|] == (G.flag[x] == 1);
      assert Path(G, y)[|px|] == (G.flag[y] == 1);
    }
  }

  /** An entry whose code word starts with that of x is x itself or lies below x. */
  lemma {:induction false} PathPrefix(G: Forest, x: nat, y: nat)
    requires Valid(G, SIZE) && !HasTwo(G.freq)
    requires x < SIZE && y < SIZE && G.weight[x] != 0 && G.weight[y] != 0
    requires Path(G, x) <= Path(G, y)
    ensures x == y || SYMBOLS <= x
    decreases SIZE - y
  {
    if |Path(G, x)| == |Path(G, y)| {
      SamePath(G, x, y);
    } else {
      var py := Path(G, G.up[y]);
      assert py == Path(G, y)[..|py|];
      if |Path(G, x)| == |py| {
        SamePath(G, x, G.up[y]);
      } else {
        PathPrefix(G, x, G.up[y]);
      }
    }
  }
}
