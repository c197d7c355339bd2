// The recursive block partition of a 4xm P-frame: the code tables, the tree a bit stream
// describes, and the fact that its leaves tile the block.
module PBlockTree {
  import opened Bits

  // ---- Code tables ----

  /** Entry s of block_type_tab for the newer (version > 1) or older format: code word and its length, 0 if absent. */
  function BlockTypeTab(newer: bool, index: nat, s: nat): (nat, nat)
    requires index < 4 && s < 7
  {
    if newer then
      if index == 0 then [(0, 1), (2, 2), (6, 3), (14, 4), (30, 5), (31, 5), (0, 0)][s]
      else if index == 1 then [(0, 1), (0, 0), (2, 2), (6, 3), (14, 4), (15, 4), (0, 0)][s]
      else if index == 2 then [(0, 1), (2, 2), (0, 0), (6, 3), (14, 4), (15, 4), (0, 0)][s]
      else [(0, 1), (0, 0), (0, 0), (2, 2), (6, 3), (14, 4), (15, 4)][s]
    else
      if index == 0 then [(1, 2), (4, 3), (5, 3), (0, 2), (6, 3), (7, 3), (0, 0)][s]
      else if index == 1 then [(1, 2), (0, 0), (2, 2), (0, 2), (6, 3), (7, 3), (0, 0)][s]
      else if index == 2 then [(1, 2), (2, 2), (0, 0), (0, 2), (6, 3), (7, 3), (0, 0)][s]
      else [(1, 2), (0, 0), (0, 0), (0, 2), (2, 2), (6, 3), (7, 3)][s]
  }

  /** size2index; the entry for a 1x1 block is -1 stored in an unsigned byte. */
  function SizeToIndex(log2h: nat, log2w: nat): nat
    requires log2h < 4 && log2w < 4
  {
    [[255, 3, 1, 1], [3, 0, 0, 0], [2, 0, 0, 0], [2, 0, 0, 0]][log2h][log2w]
  }

  /** The number formed by len bits of the stream from position pos, first bit most significant. */
  function BitsValue(bits: nat -> bool, pos: nat, len: nat): nat {
    if len == 0 then 0 else 2 * BitsValue(bits, pos, len - 1) + (if bits(pos + len - 1) then 1 else 0)
  }

  predicate Matches(newer: bool, index: nat, bits: nat -> bool, pos: nat, s: nat)
    requires index < 4 && s < 7
  {
    var (code, len) := BlockTypeTab(newer, index, s);
    len > 0 && BitsValue(bits, pos, len) == code
  }

  /** The symbol a 5-bit window selects. */
  function Select(newer: bool, index: nat, v: nat): (s: nat)
    requires index < 4 && v < 32
    ensures s < 7
  {
    if newer then
      if v < 16 then 0
      else if v < 24 then (if index == 3 then 3 else if index == 1 then 2 else 1)
      else if v < 28 then (if index == 3 then 4 else if index == 0 then 2 else 3)
      else if v < 30 then (if index == 3 then 5 else if index == 0 then 3 else 4)
      else (if index == 3 then 6 else if index != 0 then 5 else if v == 30 then 4 else 5)
    else
      if v < 8 then 3
      else if v < 16 then 0
      else if v < 24 && index != 0 then (if index == 1 then 2 else if index == 2 then 1 else 4)
      else if v < 20 then 1
      else if v < 24 then 2
      else if v < 28 then (if index == 3 then 5 else 4)
      else (if index == 3 then 6 else 5)
  }

  lemma Window(bits: nat -> bool, pos: nat)
    ensures BitsValue(bits, pos, 5) < 32
    ensures BitsValue(bits, pos, 4) == BitsValue(bits, pos, 5) / 2
    ensures BitsValue(bits, pos, 3) == BitsValue(bits, pos, 5) / 4
    ensures BitsValue(bits, pos, 2) == BitsValue(bits, pos, 5) / 8
    ensures BitsValue(bits, pos, 1) == BitsValue(bits, pos, 5) / 16
  {
    assert BitsValue(bits, pos, 0) == 0;
    assert BitsValue(bits, pos, 1) < 2;
    assert BitsValue(bits, pos, 2) < 4;
    assert BitsValue(bits, pos, 3) < 8;
    assert BitsValue(bits, pos, 4) < 16;
  }

  /** Every table is a complete prefix code: whatever the bits, exactly one of the codes 0..6 matches. */
  lemma ExactlyOneMatch(newer: bool, index: nat, bits: nat -> bool, pos: nat)
    requires index < 4
    ensures BitsValue(bits, pos, 5) < 32
    ensures forall s :: 0 <= s < 7 ==>
      (Matches(newer, index, bits, pos, s) <==> s == Select(newer, index, BitsValue(bits, pos, 5)))
  {
    Window(bits, pos);
  }

  /** How many of the symbols below s the table has a code for. */
  function Below(newer: bool, index: nat, s: nat): nat
    requires index < 4 && s <= 7
  {
    if s == 0 then 0
    else Below(newer, index, s - 1) + if BlockTypeTab(newer, index, s - 1).1 > 0 then 1 else 0
  }

  /** In the newer format the codes are unary, in the order of the symbols, and of two codes of greatest length the last
      is all ones.  In the older one skips and copies have two bits each, and so has the first of the others, unless
      there are four of them; the rest has three. */
  lemma LengthsAre(newer: bool, index: nat, s: nat)
    requires index < 4 && s < 7 && BlockTypeTab(newer, index, s).1 > 0
    ensures var len, k, n := BlockTypeTab(newer, index, s).1, Below(newer, index, s), Below(newer, index, 7);
      if newer then len == if k < n - 1 then k + 1 else n - 1
      else if s == 0 || s == 3 then len == 2
      else len == if n == 5 && k == (if s < 3 then 1 else 2) then 2 else 3
  {
    BelowIs(newer, index);
  }

  lemma BelowIs(newer: bool, index: nat)
    requires index < 4
    ensures Below(newer, index, 0) == 0 && Below(newer, index, 1) == 1
    ensures Below(newer, index, 2) == Below(newer, index, 3) - (if index in {0, 1} then 1 else 0)
    ensures Below(newer, index, 2) == 1 + (if index in {0, 2} then 1 else 0)
    ensures Below(newer, index, 4) == Below(newer, index, 3) + 1 && Below(newer, index, 5) == Below(newer, index, 4) + 1
    ensures Below(newer, index, 6) == Below(newer, index, 5) + 1
    ensures Below(newer, index, 7) == if index == 0 then 6 else 5
  {
  }

  /** As numbers of five bits, the codes are in the order of the symbols; only the skip of the older format comes first
      of all. */
  lemma CodesInOrder(newer: bool, index: nat, s: nat, t: nat)
    requires index < 4 && s < t < 7 && BlockTypeTab(newer, index, s).1 > 0 && BlockTypeTab(newer, index, t).1 > 0
    ensures var (a, m), (b, n) := BlockTypeTab(newer, index, s), BlockTypeTab(newer, index, t);
      m <= 5 && n <= 5 && a * [32, 16, 8, 4, 2, 1][m] < b * [32, 16, 8, 4, 2, 1][n] <==> newer || t != 3
  {
  }

  // ---- The partition tree ----

  /** What a P-frame is decoded from: next(pos, lw, lh) is the symbol read from the bit stream at pos for
      a block of that size, with the position after it.  A cursor holds the positions reached. */
  datatype Streams = Streams(next: (nat, nat, nat) -> (nat, nat), bytes: nat -> Byte, words: nat -> Word16)
  datatype Cursor = Cursor(bit: nat, byte: nat, word: nat)

  /** The picture is height rows high; its buffer has at least as many rows, of stride pixels each. */
  datatype Geometry = Geometry(newer: bool, stride: nat, height: nat, rows: nat, mv: seq<int>)

  datatype Tree =
    | Copy(vector: Byte)
    | SplitRows(top: Tree, bottom: Tree)
    | SplitColumns(left: Tree, right: Tree)
    | Still
    | CopyAdd(vector: Byte, dc: Word16)
    | Fill(dc: Word16)
    | Pair(first: Word16, second: Word16)
    | OffCopy(vector: Byte)       // vector points out of the picture: nothing is written
    | OffCopyAdd(vector: Byte)    // likewise, and its word is not consumed

  /** The position a block of the last picture is copied from. */
  function Source(g: Geometry, y: nat, x: nat, vector: Byte): int
    requires |g.mv| == 256
  {
    y * g.stride + x + g.mv[vector]
  }

  predicate InPicture(g: Geometry, src: int, lw: nat, lh: nat) {
    0 <= src <= g.stride * (g.height - Pow2(lh) + 1) - Pow2(lw)
  }

  predicate SizeOk(lw: nat, lh: nat) {
    lw < 4 && lh < 4 && lw + lh > 0
  }

  /** What the tables allow: splits only of splittable blocks, pairs only of two-pixel blocks. */
  predicate Allowed(code: nat, lw: nat, lh: nat) {
    && code < 7
    && (code == 1 ==> lh > 0 && lw + lh > 1)
    && (code == 2 ==> lw > 0 && lw + lh > 1)
    && (code == 6 ==> lw + lh == 1)
  }

  function ReadSymbol(newer: bool, bits: nat -> bool, pos: nat, lw: nat, lh: nat): (r: (nat, nat))
    requires SizeOk(lw, lh)
    ensures Allowed(r.0, lw, lh)
  {
    var index := SizeToIndex(lh, lw);
    ExactlyOneMatch(newer, index, bits, pos);
    var code := Select(newer, index, BitsValue(bits, pos, 5));
    (code, pos + BlockTypeTab(newer, index, code).1)
  }

  ghost predicate Sound(S: Streams) {
    forall pos, lw, lh :: SizeOk(lw, lh) ==> Allowed(S.next(pos, lw, lh).0, lw, lh)
  }

  /** The streams of a frame whose symbols are coded with the tables of the newer or older format. */
  function FromBits(newer: bool, bits: nat -> bool, bytes: nat -> Byte, words: nat -> Word16): (S: Streams)
    ensures Sound(S)
  {
    Streams(
      (pos: nat, lw: nat, lh: nat) => if SizeOk(lw, lh) then ReadSymbol(newer, bits, pos, lw, lh) else (0, pos),
      bytes, words)
  }

  /** The partitions the format can express; a block is never split below two pixels. */
  ghost predicate Legal(g: Geometry, t: Tree, y: nat, x: nat, lw: nat, lh: nat)
    decreases t
  {
    && SizeOk(lw, lh)
    && match t
      case Copy(v) => |g.mv| == 256 && InPicture(g, Source(g, y, x, v), lw, lh)
      case OffCopy(v) => |g.mv| == 256 && !InPicture(g, Source(g, y, x, v), lw, lh)
      case CopyAdd(v, _) => |g.mv| == 256 && InPicture(g, Source(g, y, x, v), lw, lh)
      case OffCopyAdd(v) => |g.mv| == 256 && !InPicture(g, Source(g, y, x, v), lw, lh)
      case SplitRows(a, b) =>
        lh > 0 && lw + lh > 1
        && Legal(g, a, y, x, lw, lh - 1) && Legal(g, b, y + Pow2(lh - 1), x, lw, lh - 1)
      case SplitColumns(a, b) =>
        lw > 0 && lw + lh > 1
        && Legal(g, a, y, x, lw - 1, lh) && Legal(g, b, y, x + Pow2(lw - 1), lw - 1, lh)
      case Still => true
      case Fill(_) => true
      case Pair(_, _) => lw + lh == 1
  }

  // ---- Leaves ----

  datatype Leaf = Leaf(y: nat, x: nat, lw: nat, lh: nat, what: Tree)

  function Leaves(t: Tree, y: nat, x: nat, lw: nat, lh: nat): seq<Leaf>
    decreases t
  {
    match t
    case SplitRows(a, b) =>
      if lh == 0 then [] else Leaves(a, y, x, lw, lh - 1) + Leaves(b, y + Pow2(lh - 1), x, lw, lh - 1)
    case SplitColumns(a, b) =>
      if lw == 0 then [] else Leaves(a, y, x, lw - 1, lh) + Leaves(b, y, x + Pow2(lw - 1), lw - 1, lh)
    case _ => [Leaf(y, x, lw, lh, t)]
  }

  lemma LeavesOfRows(a: Tree, b: Tree, y: nat, x: nat, lw: nat, h: nat)
    ensures Leaves(SplitRows(a, b), y, x, lw, h + 1) == Leaves(a, y, x, lw, h) + Leaves(b, y + Pow2(h), x, lw, h)
  {
  }

  lemma LeavesOfColumns(a: Tree, b: Tree, y: nat, x: nat, w: nat, lh: nat)
    ensures Leaves(SplitColumns(a, b), y, x, w + 1, lh) == Leaves(a, y, x, w, lh) + Leaves(b, y, x + Pow2(w), w, lh)
  {
  }

  predicate InBlock(y: nat, x: nat, lw: nat, lh: nat, r: int, c: int) {
    y <= r < y + Pow2(lh) && x <= c < x + Pow2(lw)
  }

  /** Whether a leaf stores anything: skips of the newer format and out-of-picture vectors do not. */
  predicate Writes(newer: bool, t: Tree) {
    match t
    case Still => !newer
    case OffCopy(_) => false
    case OffCopyAdd(_) => false
    case SplitRows(_, _) => false
    case SplitColumns(_, _) => false
    case _ => true
  }

  /** How many of the leaves store to the pixel in row r and column c. */
  function Stores(newer: bool, ls: seq<Leaf>, r: int, c: int): nat {
    if ls == [] then 0
    else
      (if Writes(newer, ls[0].what) && InBlock(ls[0].y, ls[0].x, ls[0].lw, ls[0].lh, r, c) then 1 else 0)
      + Stores(newer, ls[1..], r, c)
  }

  lemma {:induction false} StoresAppend(newer: bool, a: seq<Leaf>, b: seq<Leaf>, r: int, c: int)
    ensures Stores(newer, a + b, r, c) == Stores(newer, a, r, c) + Stores(newer, b, r, c)
  {
    if a == [] {
      assert a + b == b;
    } else {
      assert (a + b)[1..] == a[1..] + b;
      StoresAppend(newer, a[1..], b, r, c);
    }
  }

  /** Every leaf stores: the block is written completely. */
  predicate Complete(newer: bool, t: Tree) {
    match t
    case SplitRows(a, b) => Complete(newer, a) && Complete(newer, b)
    case SplitColumns(a, b) => Complete(newer, a) && Complete(newer, b)
    case _ => Writes(newer, t)
  }

  /** For this pixel, so many stores are what leaves that tile the block make: none outside, at most one inside, and one
      if all leaves store. */
  predicate Tiled(stores: nat, inside: bool, complete: bool) {
    (!inside ==> stores == 0) && stores <= 1 && (inside && complete ==> stores == 1)
  }

  /** The leaves tile the block: a pixel outside is never stored, one inside at most once,
      and exactly once when every leaf stores. */
  lemma {:induction false} LeavesTile(g: Geometry, t: Tree, y: nat, x: nat, lw: nat, lh: nat, r: int, c: int)
    requires Legal(g, t, y, x, lw, lh)
    ensures Tiled(Stores(g.newer, Leaves(t, y, x, lw, lh), r, c), InBlock(y, x, lw, lh, r, c), Complete(g.newer, t))
    decreases t
  {
    match t {
      case SplitRows(a, b) =>
        LeavesTile(g, a, y, x, lw, lh - 1, r, c);
        LeavesTile(g, b, y + Pow2(lh - 1), x, lw, lh - 1, r, c);
        RowsTile(g.newer, a, b, y, x, lw, lh - 1, r, c);
      case SplitColumns(a, b) =>
        LeavesTile(g, a, y, x, lw - 1, lh, r, c);
        LeavesTile(g, b, y, x + Pow2(lw - 1), lw - 1, lh, r, c);
        ColumnsTile(g.newer, a, b, y, x, lw - 1, lh, r, c);
      case _ =>
        LeafTiles(g.newer, t, y, x, lw, lh, r, c);
    }
  }

  lemma LeafTiles(newer: bool, t: Tree, y: nat, x: nat, lw: nat, lh: nat, r: int, c: int)
    requires !t.SplitRows? && !t.SplitColumns?
    ensures Tiled(Stores(newer, Leaves(t, y, x, lw, lh), r, c), InBlock(y, x, lw, lh, r, c), Complete(newer, t))
  {
    assert Leaves(t, y, x, lw, lh) == [Leaf(y, x, lw, lh, t)];
    assert Stores(newer, [], r, c) == 0;
  }

  lemma RowsTile(newer: bool, a: Tree, b: Tree, y: nat, x: nat, lw: nat, h: nat, r: int, c: int)
    requires Tiled(Stores(newer, Leaves(a, y, x, lw, h), r, c), InBlock(y, x, lw, h, r, c), Complete(newer, a))
    requires Tiled(Stores(newer, Leaves(b, y + Pow2(h), x, lw, h), r, c), InBlock(y + Pow2(h), x, lw, h, r, c),
      Complete(newer, b))
    ensures Tiled(Stores(newer, Leaves(SplitRows(a, b), y, x, lw, h + 1), r, c), InBlock(y, x, lw, h + 1, r, c),
      Complete(newer, SplitRows(a, b)))
  {
    LeavesOfRows(a, b, y, x, lw, h);
    StoresAppend(newer, Leaves(a, y, x, lw, h), Leaves(b, y + Pow2(h), x, lw, h), r, c);
    assert Pow2(h + 1) == 2 * Pow2(h);
  }

  lemma ColumnsTile(newer: bool, a: Tree, b: Tree, y: nat, x: nat, w: nat, lh: nat, r: int, c: int)
    requires Tiled(Stores(newer, Leaves(a, y, x, w, lh), r, c), InBlock(y, x, w, lh, r, c), Complete(newer, a))
    requires Tiled(Stores(newer, Leaves(b, y, x + Pow2(w), w, lh), r, c), InBlock(y, x + Pow2(w), w, lh, r, c),
      Complete(newer, b))
    ensures Tiled(Stores(newer, Leaves(SplitColumns(a, b), y, x, w + 1, lh), r, c), InBlock(y, x, w + 1, lh, r, c),
      Complete(newer, SplitColumns(a, b)))
  {
    LeavesOfColumns(a, b, y, x, w, lh);
    StoresAppend(newer, Leaves(a, y, x, w, lh), Leaves(b, y, x + Pow2(w), w, lh), r, c);
    assert Pow2(w + 1) == 2 * Pow2(w);
  }

  // ---- Reading a partition ----

  /** The symbol announcing a partition. */
  function Symbol(t: Tree): (s: nat)
    ensures s < 7
  {
    match t
    case Copy(_) => 0
    case OffCopy(_) => 0
    case SplitRows(_, _) => 1
    case SplitColumns(_, _) => 2
    case Still => 3
    case CopyAdd(_, _) => 4
    case OffCopyAdd(_) => 4
    case Fill(_) => 5
    case Pair(_, _) => 6
  }

  function AfterSymbol(S: Streams, cur: Cursor, lw: nat, lh: nat): Cursor {
    cur.(bit := S.next(cur.bit, lw, lh).1)
  }

  /** Where the streams stand once a block partitioned like t has been read from cur on. */
  function After(S: Streams, cur: Cursor, t: Tree, lw: nat, lh: nat): Cursor
    decreases t
  {
    var c := AfterSymbol(S, cur, lw, lh);
    match t
    case SplitRows(a, b) =>
      if lh == 0 then c else After(S, After(S, c, a, lw, lh - 1), b, lw, lh - 1)
    case SplitColumns(a, b) =>
      if lw == 0 then c else After(S, After(S, c, a, lw - 1, lh), b, lw - 1, lh)
    case _ => Advance(c, 0, |LeafBytes(t)|, |LeafWords(t)|)
  }

  /** Reading the streams symbol by symbol from cur on, as decode_p_block does, yields t. */
  ghost predicate Reads(S: Streams, cur: Cursor, t: Tree, lw: nat, lh: nat)
    decreases t
  {
    && S.next(cur.bit, lw, lh).0 == Symbol(t)
    && var c := AfterSymbol(S, cur, lw, lh);
    match t
      case SplitRows(a, b) =>
        lh > 0 && Reads(S, c, a, lw, lh - 1) && Reads(S, After(S, c, a, lw, lh - 1), b, lw, lh - 1)
      case SplitColumns(a, b) =>
        lw > 0 && Reads(S, c, a, lw - 1, lh) && Reads(S, After(S, c, a, lw - 1, lh), b, lw - 1, lh)
      case _ => Holds(S.bytes, c.byte, LeafBytes(t)) && Holds(S.words, c.word, LeafWords(t))
  }

  function LeafBytes(t: Tree): seq<Byte> {
    match t
    case Copy(v) => [v]
    case OffCopy(v) => [v]
    case CopyAdd(v, _) => [v]
    case OffCopyAdd(v) => [v]
    case _ => []
  }

  function LeafWords(t: Tree): seq<Word16> {
    match t
    case CopyAdd(_, dc) => [dc]
    case Fill(dc) => [dc]
    case Pair(p, q) => [p, q]
    case _ => []
  }

  ghost predicate Holds<T>(stream: nat -> T, pos: nat, s: seq<T>) {
    forall k :: 0 <= k < |s| ==> stream(pos + k) == s[k]
  }

  function Advance(cur: Cursor, bits: nat, bytes: nat, words: nat): Cursor {
    Cursor(cur.bit + bits, cur.byte + bytes, cur.word + words)
  }

  lemma HoldsFirst<T>(stream: nat -> T, pos: nat, s: seq<T>)
    requires Holds(stream, pos, s)
    ensures |s| > 0 ==> stream(pos) == s[0]
    ensures |s| > 1 ==> stream(pos + 1) == s[1]
  {
    assert |s| > 0 ==> stream(pos + 0) == s[0];
  }

  lemma LeafUnique(g: Geometry, S: Streams, cur: Cursor, t: Tree, t': Tree, y: nat, x: nat, lw: nat, lh: nat)
    requires Legal(g, t, y, x, lw, lh) && Legal(g, t', y, x, lw, lh) && Symbol(t) == Symbol(t') && Symbol(t) !in {1, 2}
    requires Holds(S.bytes, cur.byte, LeafBytes(t)) && Holds(S.words, cur.word, LeafWords(t))
    requires Holds(S.bytes, cur.byte, LeafBytes(t')) && Holds(S.words, cur.word, LeafWords(t'))
    ensures t == t'
  {
    HoldsFirst(S.bytes, cur.byte, LeafBytes(t));
    HoldsFirst(S.bytes, cur.byte, LeafBytes(t'));
    HoldsFirst(S.words, cur.word, LeafWords(t));
    HoldsFirst(S.words, cur.word, LeafWords(t'));
  }

  /** The streams and the place of the block determine what is read. */
  lemma {:induction false} ReadsUnique(g: Geometry, S: Streams, cur: Cursor, t: Tree, t': Tree, y: nat, x: nat, lw: nat,
                                       lh: nat)
    requires Legal(g, t, y, x, lw, lh) && Legal(g, t', y, x, lw, lh)
    requires Reads(S, cur, t, lw, lh) && Reads(S, cur, t', lw, lh)
    ensures t == t'
    decreases t
  {
    var c := AfterSymbol(S, cur, lw, lh);
    match t {
      case SplitRows(a, b) =>
        ReadsUnique(g, S, c, a, t'.top, y, x, lw, lh - 1);
        ReadsUnique(g, S, After(S, c, a, lw, lh - 1), b, t'.bottom, y + Pow2(lh - 1), x, lw, lh - 1);
      case SplitColumns(a, b) =>
        ReadsUnique(g, S, c, a, t'.left, y, x, lw - 1, lh);
        ReadsUnique(g, S, After(S, c, a, lw - 1, lh), b, t'.right, y, x + Pow2(lw - 1), lw - 1, lh);
      case _ =>
        LeafUnique(g, S, c, t, t', y, x, lw, lh);
    }
  }
}
