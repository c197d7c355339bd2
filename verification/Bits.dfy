// Bytes, bit strings read as numbers with the most significant bit first, and runs of equal elements.
module Bits {
  type Byte = b: nat | b < 256
  type Word16 = w: nat | w < 0x1_0000

  function Pow2(n: int): (r: nat)
    ensures 1 <= r
  {
    if n <= 0 then 1 else 2 * Pow2(n - 1)
  }

  function Repeat<T>(x: T, n: nat): (r: seq<T>)
    ensures |r| == n && forall k :: 0 <= k < n ==> r[k] == x
  {
    seq(n, _ => x)
  }

  lemma Regrouped<T>(a: seq<T>, b: seq<T>, c: seq<T>, bc: seq<T>)
    requires bc == b + c
    ensures a + b + c == a + bc
  {
  }

  /** The number a code word denotes, first bit most significant. */
  function Value(word: seq<bool>): nat {
    if word == [] then 0 else 2 * Value(word[..|word| - 1]) + (if word[|word| - 1] then 1 else 0)
  }

  function Word(v: nat, len: nat): (r: seq<bool>)
    ensures |r| == len
  {
    if len == 0 then [] else Word(v / 2, len - 1) + [v % 2 == 1]
  }

  lemma {:induction false} WordOfValue(word: seq<bool>)
    ensures Word(Value(word), |word|) == word
  {
    if word == [] {
    } else {
      WordOfValue(word[..|word| - 1]);
    }
  }

  lemma {:induction false} ValueLeads(b: bool, word: seq<bool>)
    ensures Value([b] + word) == (if b then Pow2(|word|) else 0) + Value(word)
  {
    if word == [] {
      assert Value([b]) == 2 * Value([b][..0]) + (if b then 1 else 0);
      assert [b] + word == [b];
    } else {
      assert ([b] + word)[..|word|] == [b] + word[..|word| - 1];
      ValueLeads(b, word[..|word| - 1]);
    }
  }

  lemma {:induction false} ValueBelow(word: seq<bool>)
    ensures Value(word) < Pow2(|word|)
  {
    if word == [] {
    } else {
      ValueBelow(word[..|word| - 1]);
    }
  }

  lemma {:induction false} ValueOfWord(v: nat, len: nat)
    requires v < Pow2(len)
    ensures Value(Word(v, len)) == v
  {
    if len == 0 {
    } else {
      ValueOfWord(v / 2, len - 1);
      assert Word(v, len)[..len - 1] == Word(v / 2, len - 1);
    }
  }
}
