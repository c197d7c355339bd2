// Which entries read_huffman_tables merges, and on which side each of the two ends up: what the code words are, bit by
// bit.
module HuffmanSides {
  import opened HuffmanBound
  import opened HuffmanForest

  /** x is lighter than y, or as heavy and earlier in the table. */
  predicate Lighter(weight: seq<nat>, x: nat, y: nat)
    requires x < |weight| && y < |weight|
  {
    weight[x] < weight[y] || (weight[x] == weight[y] && x < y)
  }

  /** Of two children of one entry the lighter has flag 0, and the entry weighs what the two do. */
  ghost predicate SidesByWeight(F: Forest)
    requires Shape(F)
  {
    forall x, y :: 0 <= x < SIZE && 0 <= y < SIZE && x != y && F.up[x] == F.up[y] && F.up[x] != -1 ==>
      && (F.flag[x] == 0 <==> Lighter(F.weight, x, y))
      && F.weight[F.up[x]] == F.weight[x] + F.weight[y]
  }

  ghost predicate HasSibling(up: seq<int>, x: nat)
    requires x < |up|
  {
    exists y: nat :: y < |up| && y != x && up[y] == up[x]
  }

  ghost predicate InPairs(up: seq<int>) {
    forall x :: 0 <= x < |up| && up[x] != -1 ==> HasSibling(up, x)
  }

  /** d was in the table when entry p was made, and was not merged then. */
  ghost predicate LeftFor(F: Forest, d: nat, p: int)
    requires Shape(F) && d < SIZE
  {
    d < p && F.weight[d] != 0 && (F.up[d] == -1 || p < F.up[d])
  }

  /** An entry merged is lighter than all that were left. */
  ghost predicate LightestMerged(F: Forest)
    requires Shape(F)
  {
    forall c, d :: 0 <= c < SIZE && 0 <= d < SIZE && F.up[c] != -1 && LeftFor(F, d, F.up[c]) ==> Lighter(F.weight, c, d)
  }

  ghost predicate Ordered(F: Forest)
    requires Shape(F)
  {
    SidesByWeight(F) && InPairs(F.up) && LightestMerged(F)
  }

  lemma JoinSides(F: Forest, n: nat, i: nat, j: nat)
    requires Valid(F, n) && n < SIZE && TwoLeast(F.freq, i, j) && SidesByWeight(F) && Shape(Join(F, n, i, j))
    ensures SidesByWeight(Join(F, n, i, j))
  {
    assert i < n && j < n && F.up[i] == -1 && F.up[j] == -1 && Before(F.freq, i, j);
    var F' := Join(F, n, i, j);
    forall x, y | 0 <= x < SIZE && 0 <= y < SIZE && x != y && F'.up[x] == F'.up[y] && F'.up[x] != -1
      ensures F'.flag[x] == 0 <==> Lighter(F'.weight, x, y)
      ensures F'.weight[F'.up[x]] == F'.weight[x] + F'.weight[y]
    {
      if F'.up[x] == n {
        assert x == i || x == j;
        assert y == i || y == j;
      } else {
        assert F.up[x] == F.up[y] && F.up[x] < n && x < n && y < n;
      }
    }
  }

  lemma JoinPairs(up: seq<int>, up': seq<int>, n: nat, i: nat, j: nat)
    requires InPairs(up) && i < |up| && j < |up| && i != j && up[i] == -1 && up[j] == -1 && up' == up[i := n][j := n]
    ensures InPairs(up')
  {
    forall x | 0 <= x < |up'| && up'[x] != -1
      ensures HasSibling(up', x)
    {
      if x == i {
        assert up'[j] == up'[i];
      } else if x == j {
        assert up'[i] == up'[j];
      } else {
        assert HasSibling(up, x);
        var y: nat :| y < |up| && y != x && up[y] == up[x];
        assert up'[y] == up'[x];
      }
    }
  }

  lemma JoinLightestMerged(F: Forest, n: nat, i: nat, j: nat)
    requires Valid(F, n) && n < SIZE && TwoLeast(F.freq, i, j) && LightestMerged(F) && Shape(Join(F, n, i, j))
    ensures LightestMerged(Join(F, n, i, j))
  {
    assert i < n && j < n && F.up[i] == -1 && F.up[j] == -1 && Before(F.freq, i, j);
    var F' := Join(F, n, i, j);
    forall c, d | 0 <= c < SIZE && 0 <= d < SIZE && F'.up[c] != -1 && LeftFor(F', d, F'.up[c])
      ensures Lighter(F'.weight, c, d)
    {
      if F'.up[c] == n {
        assert d != i && d != j && F.up[d] == -1 && F.freq[d] != 0;
        assert Before(F.freq, j, d);
      } else {
        assert F.up[c] == F'.up[c] < n && c < n && d < n;
        assert LeftFor(F, d, F.up[c]);
      }
    }
  }

  lemma {:induction false} FinishOrdered(F: Forest, n: nat, G: Forest)
    requires Valid(F, n) && Ordered(F) && G == Finish(F, n)
    ensures Ordered(G)
    decreases SIZE - n
  {
    if n == SIZE || !HasTwo(F.freq) {
    } else {
      var i: nat, j: nat :| TwoLeast(F.freq, i, j);
      var next := n + 1;
      ValidIsFree(F, n);
      MergeStep(F, n, next, G, i, j);
      JoinOrdered(F, n, i, j);
      FinishOrdered(Join(F, n, i, j), next, G);
    }
  }

  lemma JoinOrdered(F: Forest, n: nat, i: nat, j: nat)
    requires Valid(F, n) && n < SIZE && TwoLeast(F.freq, i, j) && Ordered(F)
    ensures Shape(Join(F, n, i, j)) && Ordered(Join(F, n, i, j))
  {
    JoinValid(F, n, i, j);
    var F' := Join(F, n, i, j);
    JoinSides(F, n, i, j);
    JoinPairs(F.up, F'.up, n, i, j);
    JoinLightestMerged(F, n, i, j);
  }

  lemma SiblingPaths(G: Forest, x: nat, y: nat)
    requires Valid(G, SIZE) && Ordered(G) && x < SIZE && y < SIZE && x != y && G.up[x] == G.up[y] != -1
    ensures G.weight[G.up[x]] == G.weight[x] + G.weight[y]
    ensures Path(G, x) == Path(G, G.up[x]) + [!Lighter(G.weight, x, y)]
  {
    assert G.flag[x] <= 1 && (G.flag[x] == 0 <==> Lighter(G.weight, x, y));
  }
}
