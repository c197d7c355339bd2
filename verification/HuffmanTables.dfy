// read_huffman_tables of 4xm.c: the frequency ranges in the stream, the merge loop over the
// arrays frequency, up and flag, and the loop that reads each code word off the links.
module HuffmanTables {
  import opened Bits
  import opened Sums
  import opened HuffmanBound
  import opened HuffmanForest
  import opened HuffmanDepth
  import opened HuffmanSides

  const NO_FREQ: nat := 256 * 256

  // ---- The merge loop ----

  ghost predicate ScannedOne(f: seq<nat>, n: nat, m0: nat, s0: nat)
    requires n <= |f|
  {
    if m0 == NO_FREQ then forall k :: 0 <= k < n ==> f[k] == 0
    else s0 < n && f[s0] == m0 != 0 && forall k :: 0 <= k < n && f[k] != 0 && k != s0 ==> Before(f, s0, k)
  }

  ghost predicate ScannedTwo(f: seq<nat>, n: nat, m0: nat, s0: nat, m1: nat, s1: nat)
    requires n <= |f|
  {
    && ScannedOne(f, n, m0, s0)
    && m0 <= m1
    && (m1 == NO_FREQ ==> forall k :: 0 <= k < n && f[k] != 0 ==> k == s0)
    && (m1 != NO_FREQ ==> s1 < n && s1 != s0 && f[s1] == m1 != 0)
    && (m1 != NO_FREQ ==> forall k :: 0 <= k < n && f[k] != 0 && k != s0 && k != s1 ==> Before(f, s1, k))
  }

  ghost predicate BelowSentinel(f: seq<nat>) {
    forall k :: 0 <= k < |f| ==> f[k] < NO_FREQ
  }

  /** The scan for the two least frequencies; a minimum still equal to the sentinel was not found. */
  method TwoSmallest(frequency: array<nat>, j: nat) returns (m0: nat, s0: nat, m1: nat, s1: nat)
    requires j <= frequency.Length && BelowSentinel(frequency[..])
    ensures ScannedTwo(frequency[..], j, m0, s0, m1, s1)
  {
    m0, m1, s0, s1 := NO_FREQ, NO_FREQ, 0, 0;
    for i := 0 to j
      invariant ScannedTwo(frequency[..], i, m0, s0, m1, s1)
    {
      if frequency[i] == 0 {
        continue;
      }
      if frequency[i] < m1 {
        if frequency[i] < m0 {
          m1, s1 := m0, s0;
          m0, s0 := frequency[i], i;
        } else {
          m1, s1 := frequency[i], i;
        }
      }
    }
  }

  lemma ScanDecides(f: seq<nat>, n: nat, m0: nat, s0: nat, m1: nat, s1: nat)
    requires FreeFrom(f, n) && ScannedTwo(f, n, m0, s0, m1, s1)
    ensures m1 == NO_FREQ ==> !HasTwo(f)
    ensures m1 != NO_FREQ ==> TwoLeast(f, s0, s1) && m0 == f[s0] && m1 == f[s1]
  {
    if m1 == NO_FREQ {
      forall i: nat, j: nat ensures !TwoLeast(f, i, j) {
      }
    }
  }

  ghost function Built(freq: seq<nat>, flag: seq<nat>): (G: Forest)
    requires ByteTable(freq) && |flag| == SIZE
    ensures Valid(G, SIZE)
  {
    StartValid(freq, flag);
    Finish(Start(freq, flag), SYMBOLS)
  }

  /** One merge in place: entry j takes over the two entries found. */
  method MergeEntries(frequency: array<nat>, up: array<int>, flag: array<nat>, ghost weight: seq<nat>,
                      j: nat, s0: nat, s1: nat, m0: nat, m1: nat)
    requires frequency.Length == up.Length == flag.Length == |weight| && frequency != flag
    requires j < |weight| && s0 < j && s1 < j && s0 != s1 && m0 == frequency[s0] && m1 == frequency[s1]
    modifies frequency, up, flag
    ensures Forest(frequency[..], up[..], flag[..], weight[j := m0 + m1])
      == Join(Forest(old(frequency[..]), old(up[..]), old(flag[..]), weight), j, s0, s1)
  {
    frequency[j] := m0 + m1;
    flag[s0] := 0;
    flag[s1] := 1;
    up[s0] := j;
    up[s1] := j;
    frequency[s0] := 0;
    frequency[s1] := 0;
  }

  /** The forest the loop will end with. */
  ghost function Finished(F: Forest, j: nat): Forest
    requires Valid(F, j)
  {
    Finish(F, j)
  }

  ghost predicate Building(F: Forest, j: nat, freq: seq<nat>, G: Forest) {
    Valid(F, j) && Finished(F, j) == G && Sum(F.freq) == Sum(freq)
  }

  lemma BuildingStarts(freq: seq<nat>, flag: seq<nat>)
    requires ByteTable(freq) && |flag| == SIZE
    ensures Building(Start(freq, flag), SYMBOLS, freq, Built(freq, flag))
  {
    StartValid(freq, flag);
  }

  lemma BuildingScans(F: Forest, j: nat, freq: seq<nat>, G: Forest)
    requires Building(F, j, freq, G) && ByteTable(freq)
    ensures FreeFrom(F.freq, j) && |F.freq| == |F.up| == |F.flag| == |F.weight| == SIZE
    ensures BelowSentinel(F.freq)
  {
    forall k | 0 <= k < SIZE ensures F.freq[k] < NO_FREQ {
      WeightBelowSentinel(freq, F, k);
    }
  }

  /** The scan either ends the loop with the finished forest or finds the next merge. */
  lemma BuildingStep(F: Forest, j: nat, j': nat, freq: seq<nat>, G: Forest, m0: nat, s0: nat, m1: nat, s1: nat)
    requires Building(F, j, freq, G) && j < SIZE && j' == j + 1 && FreeFrom(F.freq, j)
    requires ScannedTwo(F.freq, j, m0, s0, m1, s1)
    ensures m1 == NO_FREQ ==> F == G
    ensures m1 != NO_FREQ ==> s0 < j && s1 < j && s0 != s1 && m0 == F.freq[s0] && m1 == F.freq[s1]
    ensures m1 != NO_FREQ ==> Building(Join(F, j, s0, s1), j', freq, G)
  {
    ScanDecides(F.freq, j, m0, s0, m1, s1);
    if m1 != NO_FREQ {
      FinishStep(F, j, s0, s1);
      JoinKeeps(F, j, s0, s1);
    }
  }

  lemma BuildingEnds(F: Forest, freq: seq<nat>, G: Forest)
    requires Building(F, SIZE, freq, G)
    ensures F == G
  {
  }

  method BuildForest(frequency: array<nat>, up: array<int>, flag: array<nat>) returns (ghost weight: seq<nat>)
    requires frequency.Length == up.Length == flag.Length == SIZE && frequency != flag
    requires ByteTable(frequency[..]) && forall k :: 0 <= k < SIZE ==> up[k] == -1
    modifies frequency, up, flag
    ensures Forest(frequency[..], up[..], flag[..], weight) == Built(old(frequency[..]), old(flag[..]))
  {
    ghost var freq0, flag0 := frequency[..], flag[..];
    ghost var F := Start(freq0, flag0);
    assert up[..] == F.up;
    BuildingStarts(freq0, flag0);
    weight := MergeAll(frequency, up, flag, freq0, F, Built(freq0, flag0));
  }

  /** The merge loop, from any forest F to the finished one. */
  method MergeAll(frequency: array<nat>, up: array<int>, flag: array<nat>,
                  ghost freq0: seq<nat>, ghost F0: Forest, ghost G: Forest)
    returns (ghost weight: seq<nat>)
    requires frequency.Length == up.Length == flag.Length == SIZE && frequency != flag && ByteTable(freq0)
    requires F0 == Forest(frequency[..], up[..], flag[..], F0.weight) && Building(F0, SYMBOLS, freq0, G)
    modifies frequency, up, flag
    ensures Forest(frequency[..], up[..], flag[..], weight) == G
  {
    ghost var F := F0;
    weight := F.weight;
    var j := SYMBOLS;
    while j < SIZE
      invariant SYMBOLS <= j <= SIZE
      invariant F == Forest(frequency[..], up[..], flag[..], weight)
      invariant Building(F, j, freq0, G)
    {
      var done;
      done, j, weight, F := MergeOnce(frequency, up, flag, weight, j, freq0, F, G);
      if done {
        return;
      }
    }
    BuildingEnds(F, freq0, G);
  }

  /** One round of the loop: it ends it, or makes entry j of the two lightest roots and goes on to the next. */
  method MergeOnce(frequency: array<nat>, up: array<int>, flag: array<nat>, ghost weight: seq<nat>, j: nat,
                   ghost freq0: seq<nat>, ghost F: Forest, ghost G: Forest)
    returns (done: bool, j': nat, ghost weight': seq<nat>, ghost F': Forest)
    requires frequency.Length == up.Length == flag.Length == SIZE && frequency != flag && j < SIZE
    requires F == Forest(frequency[..], up[..], flag[..], weight) && ByteTable(freq0) && Building(F, j, freq0, G)
    modifies frequency, up, flag
    ensures F' == Forest(frequency[..], up[..], flag[..], weight')
    ensures done ==> F' == G
    ensures !done ==> j' == j + 1 && Building(F', j', freq0, G)
  {
    BuildingScans(F, j, freq0, G);
    var m0, s0, m1, s1 := TwoSmallest(frequency, j);
    j' := j + 1;
    BuildingStep(F, j, j', freq0, G, m0, s0, m1, s1);
    if m1 == NO_FREQ {
      return true, j, weight, F;
    }
    MergeEntries(frequency, up, flag, weight, j, s0, s1, m0, m1);
    return false, j', weight[j := m0 + m1], Join(F, j, s0, s1);
  }

  // ---- Reading the code words ----

  /** Reads every symbol's code word off the links, last bit first. */
  method ReadCodes(ghost G: Forest, up: array<int>, flag: array<nat>)
    returns (bits_tab: array<nat>, len_tab: array<nat>)
    requires Valid(G, SIZE) && up[..] == G.up && flag[..] == G.flag
    ensures bits_tab.Length == len_tab.Length == SYMBOLS && fresh(bits_tab) && fresh(len_tab)
    ensures forall s :: 0 <= s < SYMBOLS ==> len_tab[s] == |Path(G, s)| && bits_tab[s] == Value(Path(G, s))
  {
    bits_tab := new nat[SYMBOLS];
    len_tab := new nat[SYMBOLS];
    for j := 0 to SYMBOLS
      invariant forall s :: 0 <= s < j ==> len_tab[s] == |Path(G, s)| && bits_tab[s] == Value(Path(G, s))
    {
      var bits, len := ReadCode(G, up, flag, j);
      bits_tab[j] := bits;
      len_tab[j] := len;
    }
  }

  /** Climbing from node puts its side in front of the bits read so far. */
  lemma {:induction false} ClimbOne(G: Forest, j: nat, node: nat, suffix: seq<bool>)
    requires Shape(G) && j < SIZE && node < SIZE && G.up[node] != -1 && Path(G, j) == Path(G, node) + suffix
    ensures Path(G, j) == Path(G, G.up[node]) + ([G.flag[node] == 1] + suffix)
  {
    assert Path(G, node) == Path(G, G.up[node]) + [G.flag[node] == 1];
  }

  method ReadCode(ghost G: Forest, up: array<int>, flag: array<nat>, j: nat) returns (bits: nat, len: nat)
    requires Valid(G, SIZE) && up[..] == G.up && flag[..] == G.flag && j < SYMBOLS
    ensures len == |Path(G, j)| && bits == Value(Path(G, j))
  {
    bits, len := 0, 0;
    var node := j;
    ghost var suffix: seq<bool> := [];
    while up[node] != -1
      invariant node < SIZE && Path(G, j) == Path(G, node) + suffix
      invariant len == |suffix| && bits == Value(suffix)
      decreases SIZE - node
    {
      assert up[node] == G.up[node] && flag[node] == G.flag[node] <= 1;
      ClimbOne(G, j, node, suffix);
      ValueLeads(flag[node] == 1, suffix);
      bits := bits + flag[node] * Pow2(len);
      len := len + 1;
      suffix := [flag[node] == 1] + suffix;
      node := up[node];
    }
    assert up[node] == G.up[node];
    assert Path(G, j) == suffix;
  }

  // ---- What the code table is good for ----

  /** The code word of every entry; entries that are not live symbols have no use for theirs. */
  function CodeOf(G: Forest): (code: Code)
    requires Valid(G, SIZE)
    ensures |code| == SIZE
  {
    seq(SIZE, x requires 0 <= x < SIZE => Path(G, x))
  }

  lemma LengthsOfCode(G: Forest)
    requires Valid(G, SIZE)
    ensures Lengths(CodeOf(G)) == Depths(G)
  {
  }

  lemma StartFacts(freq: seq<nat>, flag: seq<nat>)
    requires ByteTable(freq) && |flag| == SIZE
    ensures Valid(Start(freq, flag), SYMBOLS) && FreeFrom(freq, SYMBOLS)
    ensures 1 <= Count(freq) <= 257
    ensures forall s :: 0 <= s < SYMBOLS && freq[s] != 0 ==> Built(freq, flag).weight[s] != 0
  {
    StartValid(freq, flag);
    var ones := Indicator(freq);
    SumAtLeastOne(ones, 256);
    assert ones == ones[..257] + ones[257..];
    SumAppend(ones[..257], ones[257..]);
    SumAtMost(ones[..257], 1);
    SumZero(ones[257..]);
    var G := Built(freq, flag);
    assert SameBelow(G.weight, freq, SYMBOLS);
    forall s | 0 <= s < SYMBOLS && freq[s] != 0 ensures G.weight[s] != 0 {
      assert G.weight[..SYMBOLS][s] == freq[..SYMBOLS][s];
    }
  }

  lemma BuiltOrdered(freq: seq<nat>, flag: seq<nat>)
    requires ByteTable(freq) && |flag| == SIZE
    ensures Ordered(Built(freq, flag)) && SameBelow(Built(freq, flag).weight, freq, SYMBOLS)
  {
    StartValid(freq, flag);
    FinishOrdered(Start(freq, flag), SYMBOLS, Built(freq, flag));
  }

  /** Two entries merged into one have its word and one bit more: 0 for the lighter, or for the earlier if they are
      equally heavy, and 1 for the other.  It weighs as much as the two. */
  lemma SiblingWords(freq: seq<nat>, flag: seq<nat>, x: nat, y: nat)
    requires ByteTable(freq) && |flag| == SIZE && x < SIZE && y < SIZE && x != y
    requires Built(freq, flag).up[x] == Built(freq, flag).up[y] != -1
    ensures var G := Built(freq, flag); var p := G.up[x]; var code := CodeOf(G);
      && 0 <= p < SIZE && G.weight[p] == G.weight[x] + G.weight[y]
      && (G.flag[x] == 0 <==> G.weight[x] < G.weight[y] || (G.weight[x] == G.weight[y] && x < y))
      && (G.weight[x] < G.weight[y] ==> code[x] == code[p] + [false] && code[y] == code[p] + [true])
      && (G.weight[x] == G.weight[y] && x < y ==> code[x] == code[p] + [false] && code[y] == code[p] + [true])
  {
    BuiltOrdered(freq, flag);
    SiblingPaths(Built(freq, flag), x, y);
    SiblingPaths(Built(freq, flag), y, x);
  }

  /** Every entry but the roots is one of two; the symbols weigh what their frequencies say; roots have the empty
      word. */
  lemma EntriesPair(freq: seq<nat>, flag: seq<nat>, x: nat)
    requires ByteTable(freq) && |flag| == SIZE && x < SIZE
    ensures var G := Built(freq, flag);
      && (x < SYMBOLS ==> G.weight[x] == freq[x])
      && (G.up[x] == -1 ==> CodeOf(G)[x] == [])
      && (G.up[x] != -1 ==> exists y: nat :: y < SIZE && y != x && G.up[y] == G.up[x])
  {
    BuiltOrdered(freq, flag);
    var G := Built(freq, flag);
    if x < SYMBOLS {
      WeightOfSymbol(G.weight, freq, x);
    }
    if G.up[x] != -1 {
      assert HasSibling(G.up, x);
    } else {
      assert Path(G, x) == [];
    }
  }

  lemma WeightOfSymbol(weight: seq<nat>, freq: seq<nat>, x: nat)
    requires |weight| == |freq| == SIZE && x < SYMBOLS && SameBelow(weight, freq, SYMBOLS)
    ensures weight[x] == freq[x]
  {
    assert weight[..SYMBOLS][x] == freq[..SYMBOLS][x];
  }

  /** Every merge takes the two lightest: an entry d in use that was there when c was merged, and stayed, is heavier
      than c, or as heavy and later in the table. */
  lemma LightestFirst(freq: seq<nat>, flag: seq<nat>, c: nat, d: nat)
    requires ByteTable(freq) && |flag| == SIZE && c < SIZE && d < SIZE
    requires var G := Built(freq, flag);
      G.up[c] != -1 && d < G.up[c] && G.weight[d] != 0 && (G.up[d] == -1 || G.up[c] < G.up[d])
    ensures var w := Built(freq, flag).weight; w[c] < w[d] || (w[c] == w[d] && c < d)
  {
    BuiltOrdered(freq, flag);
    assert LeftFor(Built(freq, flag), d, Built(freq, flag).up[c]);
  }

  /** The code costs no more than any prefix code on the same live symbols. */
  lemma HuffmanOptimal(freq: seq<nat>, flag: seq<nat>, other: Code)
    requires ByteTable(freq) && |flag| == SIZE && |other| == SIZE && PrefixFree(freq, other)
    ensures Cost(freq, Lengths(CodeOf(Built(freq, flag)))) <= Cost(freq, Lengths(other))
  {
    StartFacts(freq, flag);
    var G := Built(freq, flag);
    FinishSums(Start(freq, flag), SYMBOLS, G);
    RootSums(G);
    LengthsOfCode(G);
    PrefixLowerBound(freq, SYMBOLS, other);
  }

  /** The loop stops with one root, or with two when all 257 symbols are live. */
  lemma {:induction false} RootsLeft(freq: seq<nat>, flag: seq<nat>)
    requires ByteTable(freq) && |flag| == SIZE
    ensures Count(Built(freq, flag).freq) == if Count(freq) <= 256 then 1 else 2
    ensures HasTwo(Built(freq, flag).freq) <==> Count(freq) == 257
  {
    StartFacts(freq, flag);
    FinishCount(Start(freq, flag), SYMBOLS, Built(freq, flag));
    CountOfTwo(Built(freq, flag).freq);
  }

  lemma {:induction false} KraftConserved(freq: seq<nat>, flag: seq<nat>)
    requires ByteTable(freq) && |flag| == SIZE
    ensures var G := Built(freq, flag); Kraft(freq, Depths(G), SIZE) == Kraft(G.freq, Depths(G), SIZE)
  {
    StartFacts(freq, flag);
    FinishSums(Start(freq, flag), SYMBOLS, Built(freq, flag));
  }

  /** The Kraft sum is 1, or 2 when all 257 symbols are live and the loop stops one merge short. */
  lemma {:induction false} HuffmanKraft(freq: seq<nat>, flag: seq<nat>)
    requires ByteTable(freq) && |flag| == SIZE
    ensures Kraft(freq, Lengths(CodeOf(Built(freq, flag))), SIZE) == (if Count(freq) <= 256 then 1 else 2) * Pow2(SIZE)
    ensures HasTwo(Built(freq, flag).freq) <==> Count(freq) == 257
  {
    RootsLeft(freq, flag);
    KraftConserved(freq, flag);
    RootSums(Built(freq, flag));
    LengthsOfCode(Built(freq, flag));
  }

  /** The words form a prefix code exactly when at most 256 of the 257 symbols are live. */
  lemma HuffmanPrefixFree(freq: seq<nat>, flag: seq<nat>)
    requires ByteTable(freq) && |flag| == SIZE
    ensures PrefixFree(freq, CodeOf(Built(freq, flag))) <==> Count(freq) <= 256
  {
    var G := Built(freq, flag);
    var code := CodeOf(G);
    StartFacts(freq, flag);
    HuffmanKraft(freq, flag);
    if Count(freq) <= 256 {
      forall i, j | 0 <= i < SIZE && 0 <= j < SIZE && i != j && freq[i] != 0 && freq[j] != 0
        ensures !(code[i] <= code[j])
      {
        if code[i] <= code[j] { PathPrefix(G, i, j); }
      }
    } else if PrefixFree(freq, code) {
      PrefixKraft(freq, code, SIZE);
    }
  }

  /** Decoding inverts encoding for every sequence of live symbols, with 2 to 256 live symbols. */
  lemma HuffmanDecodes(freq: seq<nat>, flag: seq<nat>, syms: seq<nat>)
    requires ByteTable(freq) && |flag| == SIZE && 2 <= Count(freq) <= 256
    requires forall k :: 0 <= k < |syms| ==> syms[k] < SIZE && freq[syms[k]] != 0
    ensures Decode(freq, CodeOf(Built(freq, flag)), Encode(CodeOf(Built(freq, flag)), syms)) == syms
  {
    HuffmanPrefixFree(freq, flag);
    CountOfTwo(freq);
    DecodeEncode(freq, CodeOf(Built(freq, flag)), syms);
  }

  /** No code word is longer than 22 bits, so the length overflow the source wonders about cannot happen. */
  lemma HuffmanShort(freq: seq<nat>, flag: seq<nat>, s: nat)
    requires ByteTable(freq) && |flag| == SIZE && s < SYMBOLS
    ensures |CodeOf(Built(freq, flag))[s]| <= 22
  {
    StartValid(freq, flag);
    DepthBound(freq, flag, s);
  }

  // ---- The frequency ranges in the stream ----

  datatype Parsed = Short | Parsed(table: seq<nat>, pos: nat)

  function Patch(table: seq<nat>, start: nat, bytes: seq<nat>): (r: seq<nat>)
    requires start + |bytes| <= |table|
    ensures |r| == |table|
  {
    table[..start] + bytes + table[start + |bytes|..]
  }

  function RangeLength(start: Byte, end: Byte): nat {
    if start <= end then end - start + 1 else 0
  }

  datatype RangeRead = Cut | Last(table: seq<nat>, pos: nat) | More(table: seq<nat>, pos: nat)

  /** One range of frequencies at position p; it is the last one if a start of 0 follows. */
  function ParseRange(buf: seq<Byte>, p: nat, table: seq<nat>): (r: RangeRead)
    requires |table| == SIZE
    ensures !r.Cut? ==> p + 2 <= r.pos <= |buf| && |r.table| == SIZE
    ensures r.Last? ==> p + 2 < r.pos
  {
    if p + 2 > |buf| then Cut
    else
      var q := p + 2 + RangeLength(buf[p], buf[p + 1]);
      if q >= |buf| then Cut
      else
        var table' := Patch(table, buf[p], buf[p + 2..q]);
        if buf[q] == 0 then Last(table', q + 1) else More(table', q)
  }

  /** Ranges of frequencies from position p on, up to a range starting at 0; Short if the bytes run out. */
  function ParseRanges(buf: seq<Byte>, p: nat, table: seq<nat>): (r: Parsed)
    requires |table| == SIZE
    ensures r.Parsed? ==> |r.table| == SIZE && p + 2 < r.pos <= |buf|
    decreases |buf| - p
  {
    match ParseRange(buf, p, table)
    case Cut => Short
    case Last(table', q) => Parsed(table', q)
    case More(table', q) => ParseRanges(buf, q, table')
  }

  /** Only the first 256 entries are read, as bytes. */
  lemma {:induction false} ParsedBytes(buf: seq<Byte>, p: nat, table: seq<nat>)
    requires |table| == SIZE && ParseRanges(buf, p, table).Parsed? && forall k :: 0 <= k < 256 ==> table[k] <= 255
    ensures ParseRanges(buf, p, table).table[256..] == table[256..]
    ensures forall k :: 0 <= k < 256 ==> ParseRanges(buf, p, table).table[k] <= 255
    decreases |buf| - p
  {
    var head := ParseRange(buf, p, table);
    RangeBytes(buf, p, table);
    if head.Last? {
    } else {
      ParsedBytes(buf, head.pos, head.table);
    }
  }

  lemma RangeBytes(buf: seq<Byte>, p: nat, table: seq<nat>)
    requires |table| == SIZE && !ParseRange(buf, p, table).Cut? && forall k :: 0 <= k < 256 ==> table[k] <= 255
    ensures ParseRange(buf, p, table).table[256..] == table[256..]
    ensures forall k :: 0 <= k < 256 ==> ParseRange(buf, p, table).table[k] <= 255
  {
    PatchedBytes(table, buf[p], buf[p + 2..p + 2 + RangeLength(buf[p], buf[p + 1])]);
  }

  lemma PatchedBytes(table: seq<nat>, start: nat, bytes: seq<Byte>)
    requires |table| == SIZE && start + |bytes| <= 256 && forall k :: 0 <= k < 256 ==> table[k] <= 255
    ensures Patch(table, start, bytes)[256..] == table[256..]
    ensures forall k :: 0 <= k < 256 ==> Patch(table, start, bytes)[k] <= 255
  {
  }

  const NO_FREQUENCIES: seq<nat> := seq(SIZE, _ => 0)

  lemma PatchIs(table: seq<nat>, start: nat, bytes: seq<nat>, after: seq<nat>)
    requires start + |bytes| <= |table| == |after|
    requires forall k :: 0 <= k < |table| ==>
      after[k] == if start <= k < start + |bytes| then bytes[k - start] else table[k]
    ensures after == Patch(table, start, bytes)
  {
  }

  method ReadRange(buf: seq<Byte>, first: nat, start: Byte, end: Byte, frequency: array<nat>) returns (ptr: nat)
    requires frequency.Length == SIZE && first + RangeLength(start, end) <= |buf|
    modifies frequency
    ensures ptr == first + RangeLength(start, end)
    ensures ptr == if start <= end then first + (end - start) + 1 else first
    ensures forall k :: 0 <= k < SIZE ==>
      frequency[k] == if start <= k <= end then buf[first + (k - start)] else old(frequency[k])
    ensures frequency[..] == Patch(old(frequency[..]), start, buf[first..ptr])
  {
    ptr := first;
    var i: nat := start;
    while i <= end
      invariant start <= i <= start + RangeLength(start, end) && ptr == first + i - start
      invariant forall k :: 0 <= k < SIZE ==>
        frequency[k] == if start <= k < i then buf[first + (k - start)] else old(frequency[k])
    {
      frequency[i] := buf[ptr];
      ptr, i := ptr + 1, i + 1;
    }
    PatchIs(old(frequency[..]), start, buf[first..ptr], frequency[..]);
  }

  /** Ranges that parse stay inside the bytes, with the next start. */
  lemma RangeInside(buf: seq<Byte>, p: nat, table: seq<nat>)
    requires |table| == SIZE && ParseRanges(buf, p, table).Parsed?
    ensures p + 2 <= |buf| && p + 2 + RangeLength(buf[p], buf[p + 1]) < |buf|
    ensures var q := p + 2 + RangeLength(buf[p], buf[p + 1]); buf[q] != 0 ==> q + 2 <= |buf|
  {
  }

  lemma RangeRemoved(buf: seq<Byte>, p: nat, table: seq<nat>, q: nat)
    requires |table| == SIZE && p + 2 <= |buf| && q == p + 2 + RangeLength(buf[p], buf[p + 1]) < |buf|
    ensures var table' := Patch(table, buf[p], buf[p + 2..q]);
      ParseRanges(buf, p, table) == if buf[q] == 0 then Parsed(table', q + 1) else ParseRanges(buf, q, table')
  {
  }

  /** One range, up to the next start. */
  method ReadOne(buf: seq<Byte>, first: nat, start: Byte, end: Byte, frequency: array<nat>) returns (ptr: nat)
    requires frequency.Length == SIZE && 2 <= first <= |buf| && start == buf[first - 2] && end == buf[first - 1]
    requires ParseRanges(buf, first - 2, frequency[..]).Parsed?
    modifies frequency
    ensures first <= ptr < |buf| && (buf[ptr] != 0 ==> ptr + 2 <= |buf|)
    ensures old(ParseRanges(buf, first - 2, frequency[..]))
         == if buf[ptr] == 0 then Parsed(frequency[..], ptr + 1) else ParseRanges(buf, ptr, frequency[..])
  {
    ghost var p, table := first - 2, frequency[..];
    RangeInside(buf, p, table);
    ptr := ReadRange(buf, first, start, end, frequency);
    RangeRemoved(buf, p, table, ptr);
  }

  /** All the ranges, up to a start of 0. */
  method ReadRanges(buf: seq<Byte>, frequency: array<nat>, ghost goal: Parsed) returns (ptr: nat)
    requires frequency.Length == SIZE && goal.Parsed? && ParseRanges(buf, 0, frequency[..]) == goal
    modifies frequency
    ensures frequency[..] == goal.table && ptr == goal.pos
  {
    RangeInside(buf, 0, frequency[..]);
    var start, end := buf[0], buf[1];
    ptr := 2;
    while true
      invariant 2 <= ptr <= |buf| && start == buf[ptr - 2] && end == buf[ptr - 1]
      invariant ParseRanges(buf, ptr - 2, frequency[..]) == goal
      decreases |buf| - ptr
    {
      ptr := ReadOne(buf, ptr, start, end, frequency);
      start := buf[ptr];
      ptr := ptr + 1;
      if start == 0 {
        return;
      }
      end := buf[ptr];
      ptr := ptr + 1;
    }
  }

  method ReadFrequencies(buf: seq<Byte>, frequency: array<nat>) returns (ptr: nat)
    requires frequency.Length == SIZE && frequency[..] == NO_FREQUENCIES
    requires ParseRanges(buf, 0, NO_FREQUENCIES).Parsed?
    modifies frequency
    ensures frequency[..] == ParseRanges(buf, 0, NO_FREQUENCIES).table[256 := 1]
    ensures ParseRanges(buf, 0, NO_FREQUENCIES).pos <= ptr < ParseRanges(buf, 0, NO_FREQUENCIES).pos + 4 && ptr % 4 == 0
  {
    ptr := ReadRanges(buf, frequency, ParseRanges(buf, 0, NO_FREQUENCIES));
    frequency[256] := 1;
    ptr := AlignToFour(ptr);
  }

  method AlignToFour(p: nat) returns (ptr: nat)
    ensures p <= ptr < p + 4 && ptr % 4 == 0
  {
    ptr := p;
    while ptr % 4 != 0
      invariant p <= ptr < p + 4 && (ptr + 3) / 4 == (p + 3) / 4
      decreases p + 4 - ptr
    {
      ptr := ptr + 1;
    }
  }

  /** A range of frequencies as the encoder writes it. */
  datatype Range = Range(start: Byte, bytes: seq<Byte>)

  ghost predicate Writable(rs: seq<Range>, first: bool) {
    rs != [] && forall k :: 0 <= k < |rs| ==>
      && rs[k].bytes != [] && rs[k].start + |rs[k].bytes| <= 256
      && (rs[k].start == 0 ==> first && k == 0)
  }

  function WriteHead(r: Range): seq<Byte>
    requires r.bytes != [] && r.start + |r.bytes| <= 256
  {
    [r.start, r.start + |r.bytes| - 1] + r.bytes
  }

  function WriteRanges(rs: seq<Range>): (r: seq<Byte>)
    requires forall k :: 0 <= k < |rs| ==> rs[k].bytes != [] && rs[k].start + |rs[k].bytes| <= 256
    ensures r != []
  {
    if rs == [] then [0] else WriteHead(rs[0]) + WriteRanges(rs[1..])
  }

  function Overlay(table: seq<nat>, rs: seq<Range>): (r: seq<nat>)
    requires |table| == SIZE
    requires forall k :: 0 <= k < |rs| ==> rs[k].start + |rs[k].bytes| <= 256
    ensures |r| == SIZE
    decreases |rs|
  {
    if rs == [] then table else Overlay(Patch(table, rs[0].start, rs[0].bytes), rs[1..])
  }

  /** Of several ranges with an entry the last one says what it is. */
  lemma {:induction false} OverlayAt(table: seq<nat>, rs: seq<Range>, i: nat, k: nat)
    requires |table| == SIZE && forall j :: 0 <= j < |rs| ==> rs[j].start + |rs[j].bytes| <= 256
    requires i < |rs| && rs[i].start <= k < rs[i].start + |rs[i].bytes|
    requires forall j :: i < j < |rs| ==> !(rs[j].start <= k < rs[j].start + |rs[j].bytes|)
    ensures Overlay(table, rs)[k] == rs[i].bytes[k - rs[i].start]
    decreases |rs|
  {
    var table' := Patch(table, rs[0].start, rs[0].bytes);
    if i == 0 {
      OverlayKeeps(table', rs[1..], k);
    } else {
      OverlayAt(table', rs[1..], i - 1, k);
    }
  }

  /** An entry of no range keeps its value. */
  lemma {:induction false} OverlayKeeps(table: seq<nat>, rs: seq<Range>, k: nat)
    requires |table| == SIZE && (forall j :: 0 <= j < |rs| ==> rs[j].start + |rs[j].bytes| <= 256) && k < SIZE
    requires forall j :: 0 <= j < |rs| ==> !(rs[j].start <= k < rs[j].start + |rs[j].bytes|)
    ensures Overlay(table, rs)[k] == table[k]
    decreases |rs|
  {
    if rs == [] {
    } else {
      OverlayKeeps(Patch(table, rs[0].start, rs[0].bytes), rs[1..], k);
    }
  }

  /** Reading back the ranges an encoder wrote gives the table they describe, and the position after them. */
  lemma {:induction false} ParseWritten(buf: seq<Byte>, p: nat, rs: seq<Range>, table: seq<nat>, first: bool)
    requires Writable(rs, first) && |table| == SIZE
    requires p + |WriteRanges(rs)| <= |buf| && buf[p..p + |WriteRanges(rs)|] == WriteRanges(rs)
    ensures ParseRanges(buf, p, table) == Parsed(Overlay(table, rs), p + |WriteRanges(rs)|)
    decreases |rs|
  {
    var r, q := rs[0], p + |WriteHead(rs[0])|;
    var table' := Patch(table, r.start, r.bytes);
    SplitAt(buf, p, WriteHead(r), WriteRanges(rs[1..]));
    ParseHead(buf, p, r, table, WriteRanges(rs[1..])[0]);
    if |rs| == 1 {
      assert rs[1..] == [];
      LastRange(buf, p, rs, table, q, table');
    } else {
      assert WriteRanges(rs[1..])[0] == rs[1].start;
      ParseWritten(buf, q, rs[1..], table', false);
      MoreRanges(buf, p, rs, table, q, table');
    }
  }

  lemma LastRange(buf: seq<Byte>, p: nat, rs: seq<Range>, table: seq<nat>, q: nat, table': seq<nat>)
    requires Writable(rs, true) && |table| == SIZE && |rs| == 1 && rs[1..] == []
    requires q == p + |WriteHead(rs[0])| && table' == Patch(table, rs[0].start, rs[0].bytes)
    requires ParseRange(buf, p, table) == Last(table', q + 1)
    ensures ParseRanges(buf, p, table) == Parsed(Overlay(table, rs), p + |WriteRanges(rs)|)
  {
    assert Overlay(table', []) == table' && WriteRanges([]) == [0];
  }

  lemma MoreRanges(buf: seq<Byte>, p: nat, rs: seq<Range>, table: seq<nat>, q: nat, table': seq<nat>)
    requires |table| == SIZE && rs != []
    requires forall k :: 0 <= k < |rs| ==> rs[k].bytes != [] && rs[k].start + |rs[k].bytes| <= 256
    requires q == p + |WriteHead(rs[0])| && table' == Patch(table, rs[0].start, rs[0].bytes)
    requires ParseRange(buf, p, table) == More(table', q)
    requires ParseRanges(buf, q, table') == Parsed(Overlay(table', rs[1..]), q + |WriteRanges(rs[1..])|)
    ensures ParseRanges(buf, p, table) == Parsed(Overlay(table, rs), p + |WriteRanges(rs)|)
  {
  }

  lemma SplitAt(buf: seq<Byte>, p: nat, a: seq<Byte>, b: seq<Byte>)
    requires b != [] && p + |a| + |b| <= |buf| && buf[p..p + |a + b|] == a + b
    ensures buf[p..p + |a|] == a && buf[p + |a|..p + |a| + |b|] == b && buf[p + |a|] == b[0]
  {
    var all := buf[p..p + |a| + |b|];
    assert all[..|a|] == buf[p..p + |a|];
    assert all[|a|..] == buf[p + |a|..p + |a| + |b|];
  }

  lemma ParseHead(buf: seq<Byte>, p: nat, r: Range, table: seq<nat>, next: Byte)
    requires |table| == SIZE && r.bytes != [] && r.start + |r.bytes| <= 256
    requires var q := p + |WriteHead(r)|; q < |buf| && buf[p..q] == WriteHead(r) && buf[q] == next
    ensures var q := p + |WriteHead(r)|; var table' := Patch(table, r.start, r.bytes);
      ParseRange(buf, p, table) == if next == 0 then Last(table', q + 1) else More(table', q)
  {
    var q := p + |WriteHead(r)|;
    assert buf[p..q][0] == buf[p] && buf[p..q][1] == buf[p + 1];
    assert buf[p..q][2..] == buf[p + 2..q];
  }

  // ---- The whole table reader ----

  method ReadHuffmanTables(buf: seq<Byte>)
    returns (bits_tab: array<nat>, len_tab: array<nat>, ptr: nat, ghost freq: seq<nat>, ghost flag: seq<nat>)
    requires ParseRanges(buf, 0, NO_FREQUENCIES).Parsed?
    ensures freq == ParseRanges(buf, 0, NO_FREQUENCIES).table[256 := 1] && ByteTable(freq) && |flag| == SIZE
    ensures ParseRanges(buf, 0, NO_FREQUENCIES).pos <= ptr < ParseRanges(buf, 0, NO_FREQUENCIES).pos + 4 && ptr % 4 == 0
    ensures bits_tab.Length == len_tab.Length == SYMBOLS
    ensures forall s :: 0 <= s < SYMBOLS ==> len_tab[s] <= 22 && bits_tab[s] < Pow2(len_tab[s])
    ensures forall s :: 0 <= s < SYMBOLS ==> Word(bits_tab[s], len_tab[s]) == CodeOf(Built(freq, flag))[s]
    ensures forall s, t :: 0 <= s < SYMBOLS && 0 <= t < SYMBOLS && s != t && Siblings(freq, flag, s, t) ==>
      (freq[s] < freq[t] || (freq[s] == freq[t] && s < t)) ==>
      bits_tab[s] % 2 == 0 && bits_tab[t] == bits_tab[s] + 1 && len_tab[s] == len_tab[t]
  {
    var frequency := new nat[SIZE](_ => 0);
    var flags := new nat[SIZE];
    var up := new int[SIZE](_ => -1);
    ptr := ReadFrequencies(buf, frequency);
    ParsedBytes(buf, 0, NO_FREQUENCIES);
    freq, flag := frequency[..], flags[..];
    ghost var weight := BuildForest(frequency, up, flags);
    ghost var G := Built(freq, flag);
    bits_tab, len_tab := ReadCodes(G, up, flags);
    forall s | 0 <= s < SYMBOLS
      ensures len_tab[s] <= 22 && bits_tab[s] < Pow2(len_tab[s])
        && Word(bits_tab[s], len_tab[s]) == CodeOf(G)[s]
    {
      HuffmanShort(freq, flag, s);
      WordOfValue(Path(G, s));
      ValueBelow(Path(G, s));
    }
    forall s, t | 0 <= s < SYMBOLS && 0 <= t < SYMBOLS && s != t && Siblings(freq, flag, s, t)
      && (freq[s] < freq[t] || (freq[s] == freq[t] && s < t))
      ensures bits_tab[s] % 2 == 0 && bits_tab[t] == bits_tab[s] + 1 && len_tab[s] == len_tab[t]
    {
      SiblingValues(freq, flag, s, t);
    }
  }

  /** Two symbols are merged into one entry. */
  ghost predicate Siblings(freq: seq<nat>, flag: seq<nat>, s: nat, t: nat)
    requires ByteTable(freq) && |flag| == SIZE && s < SYMBOLS && t < SYMBOLS
  {
    Built(freq, flag).up[s] == Built(freq, flag).up[t] != -1
  }

  lemma SiblingValues(freq: seq<nat>, flag: seq<nat>, s: nat, t: nat)
    requires ByteTable(freq) && |flag| == SIZE && s < SYMBOLS && t < SYMBOLS && s != t && Siblings(freq, flag, s, t)
    requires freq[s] < freq[t] || (freq[s] == freq[t] && s < t)
    ensures var G := Built(freq, flag);
      && Value(Path(G, s)) % 2 == 0 && Value(Path(G, t)) == Value(Path(G, s)) + 1 && |Path(G, s)| == |Path(G, t)|
  {
    EntriesPair(freq, flag, s);
    EntriesPair(freq, flag, t);
    SiblingWords(freq, flag, s, t);
    var G := Built(freq, flag);
    LastBit(Path(G, G.up[s]), Path(G, s), Path(G, t));
  }

  lemma LastBit(word: seq<bool>, left: seq<bool>, right: seq<bool>)
    requires left == word + [false] && right == word + [true]
    ensures Value(left) % 2 == 0 && Value(right) == Value(left) + 1 && |left| == |right|
  {
    assert left[..|word|] == word && right[..|word|] == word;
    var v := Value(word);
    assert Value(left) == 2 * v && Value(right) == 2 * v + 1;
  }
}
