// How deep the forest can get: the Fibonacci bound on code lengths.
module HuffmanDepth {
  import opened Sums
  import opened HuffmanForest

  function Fib(n: nat): nat {
    if n < 2 then n else Fib(n - 1) + Fib(n - 2)
  }

  /** The frequency table as it is read from the stream: bytes, and 1 for the end symbol. */
  ghost predicate ByteTable(freq: seq<nat>) {
    && |freq| == SIZE && freq[256] == 1
    && (forall k :: 0 <= k < 256 ==> freq[k] <= 255)
    && (forall k :: SYMBOLS <= k < SIZE ==> freq[k] == 0)
  }

  /** The forest before the first merge. */
  function Start(freq: seq<nat>, flag: seq<nat>): Forest
  {
    Forest(freq, seq(SIZE, _ => -1), flag, freq)
  }

  lemma BalancedAt(G: Forest, c: nat)
    requires Valid(G, SIZE) && Balanced(G) && c < SIZE && G.up[c] != -1
    ensures G.weight[c] < G.weight[G.up[c]]
    ensures G.up[G.up[c]] != -1 ==> G.weight[G.up[c]] + G.weight[c] <= G.weight[G.up[G.up[c]]]
  {
  }

  /** Going up from an entry that weighs a Fibonacci number. */
  lemma {:induction false} ClimbFibonacci(G: Forest, c: nat, k: nat, len: nat) returns (root: nat)
    requires Valid(G, SIZE) && Balanced(G) && c < SIZE && len == |Path(G, c)|
    requires Fib(k + 2) <= G.weight[c]
    requires G.up[c] != -1 ==> Fib(k + 3) <= G.weight[G.up[c]]
    ensures root < SIZE && Fib(k + len + 2) <= G.freq[root]
    decreases len
  {
    if G.up[c] == -1 {
      root := c;
    } else {
      BalancedAt(G, c);
      assert Fib(k + 4) == Fib(k + 3) + Fib(k + 2);
      root := ClimbFibonacci(G, G.up[c], k + 1, len - 1);
    }
  }

  lemma {:induction false} FibMonotone(m: nat, n: nat)
    requires m <= n
    ensures Fib(m) <= Fib(n)
    decreases n - m
  {
    if n <= m {
    } else {
      FibMonotone(m, n - 1);
      if n < 2 { } else { assert Fib(n) == Fib(n - 1) + Fib(n - 2); }
    }
  }

  lemma Fib25()
    ensures Fib(25) == 75025
  {
    assert Fib(5) == 5 && Fib(6) == 8;
    assert Fib(10) == 55 && Fib(11) == 89;
    assert Fib(15) == 610 && Fib(16) == 987;
    assert Fib(20) == 6765 && Fib(21) == 10946;
  }

  lemma TotalWeight(freq: seq<nat>)
    requires ByteTable(freq)
    ensures Sum(freq) <= 256 * 255 + 1
  {
    assert freq == freq[..256] + ([freq[256]] + freq[257..]);
    SumAppend(freq[..256], [freq[256]] + freq[257..]);
    SumAppend([freq[256]], freq[257..]);
    SumAtMost(freq[..256], 255);
    SumZero(freq[257..]);
  }

  lemma StartValid(freq: seq<nat>, flag: seq<nat>)
    requires ByteTable(freq) && |flag| == SIZE
    ensures Valid(Start(freq, flag), SYMBOLS) && Balanced(Start(freq, flag))
  {
  }

  /** No entry of the forest ever weighs as much as the sentinel 256 * 256. */
  lemma WeightBelowSentinel(freq: seq<nat>, F: Forest, k: nat)
    requires ByteTable(freq) && Sum(F.freq) == Sum(freq) && k < |F.freq|
    ensures F.freq[k] < 256 * 256
  {
    TotalWeight(freq);
    SumAtLeastOne(F.freq, k);
  }

  /** Whatever the table, no code word is longer than 22 bits. */
  lemma DepthBound(freq: seq<nat>, flag: seq<nat>, s: nat)
    requires ByteTable(freq) && |flag| == SIZE && s < SYMBOLS && Valid(Start(freq, flag), SYMBOLS)
    ensures |Path(Finish(Start(freq, flag), SYMBOLS), s)| <= 22
  {
    StartValid(freq, flag);
    var G := Finish(Start(freq, flag), SYMBOLS);
    PathBound(freq, G, s);
  }

  lemma FibLimit(len: nat)
    requires Fib(len + 2) < 256 * 256
    ensures len <= 22
  {
    if len > 22 {
      FibMonotone(25, len + 2);
      Fib25();
    }
  }

  lemma PathBound(freq: seq<nat>, G: Forest, s: nat)
    requires ByteTable(freq) && Valid(G, SIZE) && Balanced(G) && Sum(G.freq) == Sum(freq) && s < SYMBOLS
    ensures |Path(G, s)| <= 22
  {
    if G.up[s] != -1 {
      BalancedAt(G, s);
      assert G.weight[s] >= 1;
      assert Fib(2) == 1 && Fib(3) == 2;
      var root := ClimbFibonacci(G, s, 0, |Path(G, s)|);
      WeightBelowSentinel(freq, G, root);
      FibLimit(|Path(G, s)|);
    }
  }
}
