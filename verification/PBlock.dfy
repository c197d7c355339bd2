// decode_p_block, mcdc and the block loop of decode_p_frame in 4xm.c, writing the picture in place.
module PBlock {
  import opened Bits
  import opened PBlockTree

  /** The 16-bit value that mcdc stores: two neighbouring pixels are moved as one 32-bit word, so the
      addition of dc to the left pixel carries into the right one. */
  function Moved(left: Word16, right: Word16, isRight: bool, dc: Word16): Word16 {
    if isRight then (right + dc + (left + dc) / 0x1_0000) % 0x1_0000 else (left + dc) % 0x1_0000
  }

  lemma MovedAsWord(left: Word16, right: Word16, dc: Word16)
    ensures var w := (left + 0x1_0000 * right + dc * 0x1_0001) % 0x1_0000_0000;
      w % 0x1_0000 == Moved(left, right, false, dc) && w / 0x1_0000 == Moved(left, right, true, dc)
  {
    var low, carry := (left + dc) % 0x1_0000, (left + dc) / 0x1_0000;
    var high := right + dc + carry;
    assert left + 0x1_0000 * right + dc * 0x1_0001 == low + 0x1_0000 * high;
    HalvesOf(low, high);
  }

  lemma HalvesOf(low: Word16, high: nat)
    ensures var w := (low + 0x1_0000 * high) % 0x1_0000_0000; w % 0x1_0000 == low && w / 0x1_0000 == high % 0x1_0000
  {
    assert low + 0x1_0000 * high == low + 0x1_0000 * (high % 0x1_0000) + 0x1_0000_0000 * (high / 0x1_0000);
  }

  /** Both halves of the word that one addition makes of two pixels. */
  method AddToWord(left: Word16, right: Word16, dc: Word16) returns (low: Word16, high: Word16)
    ensures low == Moved(left, right, false, dc) && high == Moved(left, right, true, dc)
  {
    var tmpval := (left + 0x1_0000 * right + dc * 0x1_0001) % 0x1_0000_0000;
    MovedAsWord(left, right, dc);
    low, high := tmpval % 0x1_0000, tmpval / 0x1_0000;
  }

  ghost predicate ReadableFrom(g: Geometry, last: seq<Word16>, src: int, lw: nat, lh: nat) {
    0 <= src && src + (Pow2(lh) - 1) * g.stride + Pow2(lw) <= |last|
  }

  /** The pixel dx columns right in a row moved from position s of the last picture. */
  function RowPixel(last: seq<Word16>, s: int, lw: nat, dx: nat, dc: Word16): Word16 {
    var p := s + dx;
    var left := if lw > 0 && dx % 2 == 1 then p - 1 else p;
    var right := if lw > 0 then left + 1 else left;
    if 0 <= left && right < |last| then Moved(last[left], last[right], left < p, dc) else 0
  }

  /** The pixel dr rows down and dx columns right in a block moved from position src of the last picture. */
  function MovedPixel(stride: nat, last: seq<Word16>, src: int, lw: nat, dr: nat, dx: nat, dc: Word16): Word16 {
    RowPixel(last, src + dr * stride, lw, dx, dc)
  }

  /** What a leaf stores to the pixel in row r and column c. */
  function LeafPixel(g: Geometry, last: seq<Word16>, l: Leaf, r: int, c: int): Word16
    requires InBlock(l.y, l.x, l.lw, l.lh, r, c) && Writes(g.newer, l.what) && |g.mv| == 256
  {
    match l.what
    case Copy(v) => MovedPixel(g.stride, last, Source(g, l.y, l.x, v), l.lw, r - l.y, c - l.x, 0)
    case CopyAdd(v, dc) => MovedPixel(g.stride, last, Source(g, l.y, l.x, v), l.lw, r - l.y, c - l.x, dc)
    case Still => MovedPixel(g.stride, last, l.y * g.stride + l.x, l.lw, r - l.y, c - l.x, 0)
    case Fill(dc) => dc
    case Pair(p, q) => if (l.lw > 0 && c == l.x) || (l.lw == 0 && r == l.y) then p else q
  }

  // ---- What the pixels are, in terms of the last picture ----

  /** The last picture has all the rows of the buffer, and the block is one of the buffer. */
  ghost predicate InBuffer(g: Geometry, last: seq<Word16>, l: Leaf) {
    && |g.mv| == 256 && |last| == g.rows * g.stride && g.height <= g.rows
    && Legal(g, l.what, l.y, l.x, l.lw, l.lh) && l.y + Pow2(l.lh) <= g.rows && l.x + Pow2(l.lw) <= g.stride
  }

  /** Row r and column c of a block copied from position src, and the position the pixel is copied from. */
  lemma PlaceMoved(g: Geometry, last: seq<Word16>, l: Leaf, r: int, c: int, offset: int)
    requires InBuffer(g, last, l) && InBlock(l.y, l.x, l.lw, l.lh, r, c)
    requires ReadableFrom(g, last, l.y * g.stride + l.x + offset, l.lw, l.lh)
    ensures var src := l.y * g.stride + l.x + offset;
      src + (r - l.y) * g.stride + (c - l.x) == r * g.stride + c + offset
    ensures 0 <= r * g.stride + c + offset < |last|
    ensures c + 1 < l.x + Pow2(l.lw) ==> r * g.stride + c + offset + 1 < |last|
    ensures l.x < c ==> 0 <= r * g.stride + c + offset - 1
  {
    var src := l.y * g.stride + l.x + offset;
    RowReadable(g.stride, |last|, src, Pow2(l.lw), Pow2(l.lh), r - l.y);
    assert (r - l.y) * g.stride == r * g.stride - l.y * g.stride;
  }

  /** Moving without an addition copies. */
  lemma CopiedAlone(last: seq<Word16>, s: int, lw: nat, dx: nat)
    requires 0 <= s && s + dx < |last| && dx < Pow2(lw) && s + Pow2(lw) <= |last|
    ensures RowPixel(last, s, lw, dx, 0) == last[s + dx]
  {
    EvenWidth(lw, dx);
  }

  /** A block more than one wide is an even number of pixels wide. */
  lemma EvenWidth(lw: nat, dx: nat)
    requires dx < Pow2(lw)
    ensures lw > 0 && dx % 2 == 0 ==> dx + 1 < Pow2(lw)
    ensures lw == 0 ==> dx == 0
  {
  }

  /** A copied pixel is the one of the last picture that is the displacement of the vector away. */
  lemma CopyShows(g: Geometry, last: seq<Word16>, l: Leaf, r: int, c: int)
    requires InBuffer(g, last, l) && InBlock(l.y, l.x, l.lw, l.lh, r, c) && l.what.Copy?
    ensures var p := r * g.stride + c + g.mv[l.what.vector]; 0 <= p < |last| && LeafPixel(g, last, l, r, c) == last[p]
  {
    var src := Source(g, l.y, l.x, l.what.vector);
    SourceReadable(g, last, src, l.lw, l.lh);
    PlaceMoved(g, last, l, r, c, g.mv[l.what.vector]);
    RowReadable(g.stride, |last|, src, Pow2(l.lw), Pow2(l.lh), r - l.y);
    CopiedAlone(last, src + (r - l.y) * g.stride, l.lw, c - l.x);
  }

  /** A skip of the older format shows the pixel of the last picture at the same place. */
  lemma StillShows(g: Geometry, last: seq<Word16>, l: Leaf, r: int, c: int)
    requires InBuffer(g, last, l) && InBlock(l.y, l.x, l.lw, l.lh, r, c) && l.what.Still? && !g.newer
    ensures var p := r * g.stride + c; 0 <= p < |last| && LeafPixel(g, last, l, r, c) == last[p]
  {
    var src := l.y * g.stride + l.x;
    InPlaceReadable(g, last, l.y, l.x, l.lw, l.lh);
    PlaceMoved(g, last, l, r, c, 0);
    RowReadable(g.stride, |last|, src, Pow2(l.lw), Pow2(l.lh), r - l.y);
    CopiedAlone(last, src + (r - l.y) * g.stride, l.lw, c - l.x);
  }

  lemma AddedPair(last: seq<Word16>, s: int, lw: nat, dx: nat, next: nat, dc: Word16, p: nat, q: nat)
    requires 0 <= s && 0 < lw && dx % 2 == 0 && next == dx + 1 && p == s + dx && q == p + 1 && q < |last|
    ensures RowPixel(last, s, lw, dx, dc) + 0x1_0000 * RowPixel(last, s, lw, next, dc)
         == (last[p] + 0x1_0000 * last[q] + dc * 0x1_0001) % 0x1_0000_0000
  {
    FirstOfPair(last, s, lw, dx, dc, p, q);
    SecondOfPair(last, s, lw, next, dc, p, q);
    MovedAsWord(last[p], last[q], dc);
  }

  lemma FirstOfPair(last: seq<Word16>, s: int, lw: nat, dx: nat, dc: Word16, p: nat, q: nat)
    requires 0 <= s && 0 < lw && dx % 2 == 0 && p == s + dx && q == p + 1 && q < |last|
    ensures RowPixel(last, s, lw, dx, dc) == Moved(last[p], last[q], false, dc)
  {
  }

  lemma SecondOfPair(last: seq<Word16>, s: int, lw: nat, dx: nat, dc: Word16, p: nat, q: nat)
    requires 0 <= s && 0 < lw && dx % 2 == 1 && q == s + dx && q == p + 1 && q < |last|
    ensures RowPixel(last, s, lw, dx, dc) == Moved(last[p], last[q], true, dc)
  {
  }

  /** Where the row that a row of a block is copied from begins in the last picture. */
  lemma RowOf(g: Geometry, last: seq<Word16>, l: Leaf, r: int, c: int, p: int) returns (s: int)
    requires InBuffer(g, last, l) && InBlock(l.y, l.x, l.lw, l.lh, r, c) && l.what.CopyAdd?
    requires p == r * g.stride + c + g.mv[l.what.vector]
    ensures s == Source(g, l.y, l.x, l.what.vector) + (r - l.y) * g.stride
    ensures 0 <= s && p == s + (c - l.x) && s + Pow2(l.lw) <= |last|
  {
    var src := Source(g, l.y, l.x, l.what.vector);
    SourceReadable(g, last, src, l.lw, l.lh);
    PlaceMoved(g, last, l, r, c, g.mv[l.what.vector]);
    RowReadable(g.stride, |last|, src, Pow2(l.lw), Pow2(l.lh), r - l.y);
    s := src + (r - l.y) * g.stride;
  }

  lemma LeafPixelIs(g: Geometry, last: seq<Word16>, l: Leaf, r: int, c: int, s: int)
    requires InBlock(l.y, l.x, l.lw, l.lh, r, c) && l.what.CopyAdd? && |g.mv| == 256
    requires s == Source(g, l.y, l.x, l.what.vector) + (r - l.y) * g.stride
    ensures LeafPixel(g, last, l, r, c) == RowPixel(last, s, l.lw, c - l.x, l.what.dc)
  {
  }

  lemma AddedAlone(last: seq<Word16>, s: int, dx: nat, dc: Word16, p: nat)
    requires p == s + dx && p < |last|
    ensures RowPixel(last, s, 0, dx, dc) == (last[p] + dc) % 0x1_0000
  {
  }

  /** With an addition, a block one wide adds to each pixel; in a wider one the two pixels of an even pair are the
      halves of one 32-bit sum. */
  lemma CopyAddShows(g: Geometry, last: seq<Word16>, l: Leaf, r: int, c: int, p: int)
    requires InBuffer(g, last, l) && InBlock(l.y, l.x, l.lw, l.lh, r, c) && l.what.CopyAdd?
    requires p == r * g.stride + c + g.mv[l.what.vector]
    ensures 0 <= p < |last|
    ensures l.lw == 0 ==> LeafPixel(g, last, l, r, c) == (last[p] + l.what.dc) % 0x1_0000
    ensures l.lw > 0 && (c - l.x) % 2 == 0 ==>
      && c + 1 < l.x + Pow2(l.lw) && p + 1 < |last|
      && LeafPixel(g, last, l, r, c) + 0x1_0000 * LeafPixel(g, last, l, r, c + 1)
         == (last[p] + 0x1_0000 * last[p + 1] + l.what.dc * 0x1_0001) % 0x1_0000_0000
  {
    var s := RowOf(g, last, l, r, c, p);
    var dx := c - l.x;
    EvenWidth(l.lw, dx);
    LeafPixelIs(g, last, l, r, c, s);
    if l.lw == 0 {
      AddedAlone(last, s, dx, l.what.dc, p);
    } else if dx % 2 == 0 {
      LeafPixelIs(g, last, l, r, c + 1, s);
      AddedPair(last, s, l.lw, dx, dx + 1, l.what.dc, p, p + 1);
    }
  }

  /** The test of a vector passes exactly if the rows it points to, as wide and as many as the block's, are all in the
      picture. */
  lemma InPictureIff(g: Geometry, src: int, lw: nat, lh: nat)
    ensures InPicture(g, src, lw, lh) <==> 0 <= src && src + (Pow2(lh) - 1) * g.stride + Pow2(lw) <= g.height * g.stride
  {
    Distributed(g.stride, g.height, Pow2(lh));
  }

  lemma Distributed(stride: nat, height: nat, h: nat)
    ensures stride * (height - h + 1) == height * stride - (h - 1) * stride
  {
  }

  /** The pixel in row r and column c after the leaves have been drawn over a picture holding before there. */
  function Painted(g: Geometry, last: seq<Word16>, ls: seq<Leaf>, r: int, c: int, before: Word16): Word16
    requires |g.mv| == 256
    decreases |ls|
  {
    if ls == [] then before
    else
      LeafOver(g, last, ls[|ls| - 1], r, c, Painted(g, last, ls[..|ls| - 1], r, c, before))
  }

  lemma {:induction false} PaintedAppend(g: Geometry, last: seq<Word16>, a: seq<Leaf>, b: seq<Leaf>, r: int, c: int,
                                         before: Word16)
    requires |g.mv| == 256
    ensures Painted(g, last, a + b, r, c, before) == Painted(g, last, b, r, c, Painted(g, last, a, r, c, before))
    decreases |b|
  {
    if b == [] {
      assert a + b == a;
    } else {
      assert (a + b)[..|a + b| - 1] == a + b[..|b| - 1];
      PaintedAppend(g, last, a, b[..|b| - 1], r, c, before);
    }
  }

  type Picture = seq<seq<Word16>>

  ghost predicate Rectangular(g: Geometry, p: Picture) {
    |p| == g.rows && forall r :: 0 <= r < g.rows ==> |p[r]| == g.stride
  }

  /** after is before with the leaves drawn over it. */
  ghost predicate Drawn(g: Geometry, last: seq<Word16>, before: Picture, after: Picture, ls: seq<Leaf>) {
    && |g.mv| == 256 && Rectangular(g, before) && Rectangular(g, after)
    && forall r, c {:trigger DrawnAt(g, last, before, after, ls, r, c)} :: DrawnAt(g, last, before, after, ls, r, c)
  }

  ghost predicate DrawnAt(g: Geometry, last: seq<Word16>, before: Picture, after: Picture, ls: seq<Leaf>, r: int,
                          c: int)
    requires |g.mv| == 256 && Rectangular(g, before) && Rectangular(g, after)
  {
    0 <= r < g.rows && 0 <= c < g.stride ==> after[r][c] == Painted(g, last, ls, r, c, before[r][c])
  }

  lemma DrawnTwice(g: Geometry, last: seq<Word16>, before: Picture, mid: Picture, after: Picture, a: seq<Leaf>,
                   b: seq<Leaf>)
    requires Drawn(g, last, before, mid, a) && Drawn(g, last, mid, after, b)
    ensures Drawn(g, last, before, after, a + b)
  {
    forall r, c
      ensures DrawnAt(g, last, before, after, a + b, r, c)
    {
      assert DrawnAt(g, last, before, mid, a, r, c) && DrawnAt(g, last, mid, after, b, r, c);
      if 0 <= r < g.rows && 0 <= c < g.stride {
        PaintedAppend(g, last, a, b, r, c, before[r][c]);
      }
    }
  }

  function LeafOver(g: Geometry, last: seq<Word16>, l: Leaf, r: int, c: int, before: Word16): Word16
    requires |g.mv| == 256
  {
    if Writes(g.newer, l.what) && InBlock(l.y, l.x, l.lw, l.lh, r, c) then LeafPixel(g, last, l, r, c) else before
  }

  ghost predicate DrewOne(g: Geometry, last: seq<Word16>, before: Picture, after: Picture, l: Leaf) {
    && |g.mv| == 256 && Rectangular(g, before) && Rectangular(g, after)
    && (forall r, c :: 0 <= r < g.rows && 0 <= c < g.stride ==>
          after[r][c] == LeafOver(g, last, l, r, c, before[r][c]))
  }

  lemma DrawnOne(g: Geometry, last: seq<Word16>, before: Picture, after: Picture, l: Leaf)
    requires DrewOne(g, last, before, after, l)
    ensures Drawn(g, last, before, after, [l])
  {
    forall r, c
      ensures DrawnAt(g, last, before, after, [l], r, c)
    {
      assert [l][..|[l]| - 1] == [];
    }
  }

  lemma RowsDrawn(g: Geometry, last: seq<Word16>, before: Picture, mid: Picture, after: Picture, a: Tree, b: Tree,
                  y: nat, below: nat, x: nat, lw: nat, h: nat)
    requires below == y + Pow2(h) && Legal(g, a, y, x, lw, h) && Legal(g, b, below, x, lw, h) && h < 3
    requires Drawn(g, last, before, mid, Leaves(a, y, x, lw, h))
    requires Drawn(g, last, mid, after, Leaves(b, below, x, lw, h))
    ensures Legal(g, SplitRows(a, b), y, x, lw, h + 1)
    ensures Drawn(g, last, before, after, Leaves(SplitRows(a, b), y, x, lw, h + 1))
  {
    DrawnTwice(g, last, before, mid, after, Leaves(a, y, x, lw, h), Leaves(b, below, x, lw, h));
    LeavesOfRows(a, b, y, x, lw, h);
  }

  lemma ColumnsDrawn(g: Geometry, last: seq<Word16>, before: Picture, mid: Picture, after: Picture, a: Tree, b: Tree,
                     y: nat, x: nat, right: nat, w: nat, lh: nat)
    requires right == x + Pow2(w) && Legal(g, a, y, x, w, lh) && Legal(g, b, y, right, w, lh) && w < 3
    requires Drawn(g, last, before, mid, Leaves(a, y, x, w, lh))
    requires Drawn(g, last, mid, after, Leaves(b, y, right, w, lh))
    ensures Legal(g, SplitColumns(a, b), y, x, w + 1, lh)
    ensures Drawn(g, last, before, after, Leaves(SplitColumns(a, b), y, x, w + 1, lh))
  {
    DrawnTwice(g, last, before, mid, after, Leaves(a, y, x, w, lh), Leaves(b, y, right, w, lh));
    LeavesOfColumns(a, b, y, x, w, lh);
  }

  class Decoder {
    const g: Geometry
    const S: Streams
    const last: seq<Word16>
    const dst: array2<Word16>
    var cur: Cursor

    constructor (g: Geometry, S: Streams, last: seq<Word16>, dst: array2<Word16>)
      ensures this.g == g && this.S == S && this.last == last && this.dst == dst
      ensures cur == Cursor(0, 0, 0)
    {
      this.g, this.S, this.last, this.dst := g, S, last, dst;
      cur := Cursor(0, 0, 0);
    }

    ghost predicate Valid() {
      && |g.mv| == 256 && Sound(S)
      && dst.Length0 == g.rows && dst.Length1 == g.stride
      && |last| == g.rows * g.stride && g.height <= g.rows
    }

    /** The rows a block is copied from are all in the picture. */
    ghost predicate PointsInside(src: int, lw: nat, lh: nat) {
      0 <= src && src + (Pow2(lh) - 1) * g.stride + Pow2(lw) <= g.height * g.stride
    }

    ghost predicate Fits(y: nat, x: nat, lw: nat, lh: nat) {
      y + Pow2(lh) <= g.rows && x + Pow2(lw) <= g.stride
    }

    /** mcdc with scale 1: rows of the source block plus dc, two pixels at a time unless the block is one wide. */
    method Move(y: nat, x: nat, src: int, lw: nat, lh: nat, dc: Word16)
      requires Valid() && lw < 4 && lh < 4 && Fits(y, x, lw, lh) && ReadableFrom(g, last, src, lw, lh)
      modifies dst
      ensures forall r, c :: 0 <= r < g.rows && 0 <= c < g.stride ==>
        dst[r, c]
        == if InBlock(y, x, lw, lh, r, c) then MovedPixel(g.stride, last, src, lw, r - y, c - x, dc)
           else old(dst[r, c])
    {
      var i := 0;
      while i < Pow2(lh)
        invariant 0 <= i <= Pow2(lh)
        invariant forall r, c :: 0 <= r < g.rows && 0 <= c < g.stride ==>
          dst[r, c]
          == if InBlock(y, x, lw, lh, r, c) && r < y + i then MovedPixel(g.stride, last, src, lw, r - y, c - x, dc)
             else old(dst[r, c])
      {
        MoveRow(y, x, src, lw, lh, i, dc);
        i := i + 1;
      }
    }

    method MoveRow(y: nat, x: nat, src: int, lw: nat, lh: nat, i: nat, dc: Word16)
      requires Valid() && lw < 4 && lh < 4 && Fits(y, x, lw, lh) && ReadableFrom(g, last, src, lw, lh) && i < Pow2(lh)
      modifies dst
      ensures forall r, c :: 0 <= r < g.rows && 0 <= c < g.stride ==>
        dst[r, c]
        == if r == y + i && x <= c < x + Pow2(lw) then MovedPixel(g.stride, last, src, lw, i, c - x, dc)
           else old(dst[r, c])
    {
      var s := src + i * g.stride;
      RowReadable(g.stride, |last|, src, Pow2(lw), Pow2(lh), i);
      if lw == 0 {
        MoveOne(y + i, x, s, dc);
      } else {
        MoveWords(y + i, x, s, lw, Pow2(lw), dc);
      }
    }

    /** A row one pixel wide. */
    method MoveOne(row: nat, x: nat, s: int, dc: Word16)
      requires Valid() && row < g.rows && x < g.stride && 0 <= s < |last|
      modifies dst
      ensures forall r, c :: 0 <= r < g.rows && 0 <= c < g.stride ==>
        dst[r, c] == if r == row && x <= c < x + 1 then RowPixel(last, s, 0, c - x, dc) else old(dst[r, c])
    {
      dst[row, x] := (last[s] + dc) % 0x1_0000;
    }

    /** The pixels of a row, two at a time. */
    method MoveWords(row: nat, x: nat, s: int, lw: nat, w: nat, dc: Word16)
      requires Valid() && 0 < lw && w % 2 == 0 && row < g.rows && x + w <= g.stride && 0 <= s && s + w <= |last|
      modifies dst
      ensures forall r, c :: 0 <= r < g.rows && 0 <= c < g.stride ==>
        dst[r, c] == if r == row && x <= c < x + w then RowPixel(last, s, lw, c - x, dc) else old(dst[r, c])
    {
      var j := 0;
      while j < w
        invariant 0 <= j <= w && j % 2 == 0
        invariant forall r, c :: 0 <= r < g.rows && 0 <= c < g.stride ==>
          dst[r, c] == if r == row && x <= c < x + j then RowPixel(last, s, lw, c - x, dc) else old(dst[r, c])
      {
        MovePair(row, x, x + j, s, lw, j, dc);
        j := j + 2;
      }
    }

    /** One 32-bit word: two neighbouring pixels at once. */
    method MovePair(row: nat, x: nat, col: nat, s: int, lw: nat, j: nat, dc: Word16)
      requires Valid() && 0 < lw && j % 2 == 0 && row < g.rows && col + 1 < g.stride && 0 <= s && s + j + 1 < |last|
      requires col == x + j
      modifies dst
      ensures forall r, c :: 0 <= r < g.rows && 0 <= c < g.stride ==>
        dst[r, c] == if r == row && col <= c < col + 2 then RowPixel(last, s, lw, c - x, dc) else old(dst[r, c])
    {
      var p := s + j;
      var low, high := AddToWord(last[p], last[p + 1], dc);
      FirstOfPair(last, s, lw, j, dc, p, p + 1);
      SecondOfPair(last, s, lw, j + 1, dc, p, p + 1);
      dst[row, col] := low;
      dst[row, col + 1] := high;
    }

    /** mcdc with scale 0: every pixel becomes dc. */
    method FillWith(y: nat, x: nat, lw: nat, lh: nat, dc: Word16)
      requires Valid() && lw < 4 && lh < 4 && Fits(y, x, lw, lh)
      modifies dst
      ensures forall r, c :: 0 <= r < g.rows && 0 <= c < g.stride ==>
        dst[r, c] == if InBlock(y, x, lw, lh, r, c) then dc else old(dst[r, c])
    {
      var i := 0;
      while i < Pow2(lh)
        invariant 0 <= i <= Pow2(lh)
        invariant forall r, c :: 0 <= r < g.rows && 0 <= c < g.stride ==>
          dst[r, c] == if InBlock(y, x, lw, lh, r, c) && r < y + i then dc else old(dst[r, c])
      {
        var j := 0;
        while j < Pow2(lw)
          invariant 0 <= j <= Pow2(lw)
          invariant forall r, c :: 0 <= r < g.rows && 0 <= c < g.stride ==>
            dst[r, c]
            == if (InBlock(y, x, lw, lh, r, c) && r < y + i) || (r == y + i && x <= c < x + j) then dc
               else old(dst[r, c])
        {
          dst[y + i, x + j] := dc;
          j := j + 1;
        }
        i := i + 1;
      }
    }

    /** The picture, row by row. */
    ghost function Pixels(): (p: Picture)
      requires Valid()
      reads dst
      ensures Rectangular(g, p)
      ensures forall r, c :: 0 <= r < g.rows && 0 <= c < g.stride ==> p[r][c] == dst[r, c]
    {
      seq(g.rows,
        r requires 0 <= r < g.rows reads dst => seq(g.stride, c requires 0 <= c < g.stride reads dst => dst[r, c]))
    }

    /** decode_p_block: draws the partition the streams hold onto the block at (y, x). */
    method DecodePBlock(y: nat, x: nat, log2w: nat, log2h: nat) returns (ghost t: Tree)
      requires Valid() && SizeOk(log2w, log2h) && Fits(y, x, log2w, log2h)
      modifies this, dst
      ensures Legal(g, t, y, x, log2w, log2h) && Reads(S, old(cur), t, log2w, log2h)
      ensures CodeOf(t, S.next(old(cur).bit, log2w, log2h).0)
      ensures cur == After(S, old(cur), t, log2w, log2h)
      ensures Drawn(g, last, old(Pixels()), Pixels(), Leaves(t, y, x, log2w, log2h))
      decreases log2w + log2h, 0
    {
      var (code, bit) := S.next(cur.bit, log2w, log2h);
      cur := cur.(bit := bit);
      if code == 1 {
        t := DecodeRows(y, x, log2w, log2h - 1);
      } else if code == 2 {
        t := DecodeColumns(y, x, log2w - 1, log2h);
      } else {
        t := DecodeLeaf(code, y, x, log2w, log2h);
      }
    }

    method DecodeRows(y: nat, x: nat, log2w: nat, h: nat) returns (ghost t: Tree)
      requires Valid() && SizeOk(log2w, h) && h < 3 && Fits(y, x, log2w, h + 1)
      modifies this, dst
      ensures Legal(g, t, y, x, log2w, h + 1) && t.SplitRows?
      ensures Reads(S, old(cur), t.top, log2w, h) && Reads(S, After(S, old(cur), t.top, log2w, h), t.bottom, log2w, h)
      ensures cur == After(S, After(S, old(cur), t.top, log2w, h), t.bottom, log2w, h)
      ensures Drawn(g, last, old(Pixels()), Pixels(), Leaves(t, y, x, log2w, h + 1))
      decreases log2w + h, 1
    {
      ghost var before := Pixels();
      ghost var a := DecodePBlock(y, x, log2w, h);
      ghost var mid := Pixels();
      var below := y + Pow2(h);
      ghost var b := DecodePBlock(below, x, log2w, h);
      RowsDrawn(g, last, before, mid, Pixels(), a, b, y, below, x, log2w, h);
      t := SplitRows(a, b);
    }

    method DecodeColumns(y: nat, x: nat, w: nat, log2h: nat) returns (ghost t: Tree)
      requires Valid() && SizeOk(w, log2h) && w < 3 && Fits(y, x, w + 1, log2h)
      modifies this, dst
      ensures Legal(g, t, y, x, w + 1, log2h) && t.SplitColumns?
      ensures Reads(S, old(cur), t.left, w, log2h) && Reads(S, After(S, old(cur), t.left, w, log2h), t.right, w, log2h)
      ensures cur == After(S, After(S, old(cur), t.left, w, log2h), t.right, w, log2h)
      ensures Drawn(g, last, old(Pixels()), Pixels(), Leaves(t, y, x, w + 1, log2h))
      decreases w + log2h, 1
    {
      ghost var before := Pixels();
      ghost var a := DecodePBlock(y, x, w, log2h);
      ghost var mid := Pixels();
      var right := x + Pow2(w);
      ghost var b := DecodePBlock(y, right, w, log2h);
      ColumnsDrawn(g, last, before, mid, Pixels(), a, b, y, x, right, w, log2h);
      t := SplitColumns(a, b);
    }

    method NextByte() returns (v: Byte)
      modifies this`cur
      ensures v == S.bytes(old(cur).byte) && cur == old(cur).(byte := old(cur).byte + 1)
    {
      v := S.bytes(cur.byte);
      cur := cur.(byte := cur.byte + 1);
    }

    method NextWord() returns (w: Word16)
      modifies this`cur
      ensures w == S.words(old(cur).word) && cur == old(cur).(word := old(cur).word + 1)
    {
      w := S.words(cur.word);
      cur := cur.(word := cur.word + 1);
    }

    /** The leaves of the partition, by code. */
    method DecodeLeaf(code: nat, y: nat, x: nat, log2w: nat, log2h: nat) returns (ghost t: Tree)
      requires Valid() && SizeOk(log2w, log2h) && Fits(y, x, log2w, log2h)
      requires Allowed(code, log2w, log2h) && code != 1 && code != 2
      modifies this, dst
      ensures Legal(g, t, y, x, log2w, log2h) && Symbol(t) == code && !t.SplitRows? && !t.SplitColumns?
      ensures cur == Advance(old(cur), 0, |LeafBytes(t)|, |LeafWords(t)|)
      ensures Holds(S.bytes, old(cur).byte, LeafBytes(t)) && Holds(S.words, old(cur).word, LeafWords(t))
      ensures Drawn(g, last, old(Pixels()), Pixels(), [Leaf(y, x, log2w, log2h, t)])
      ensures CodeOf(t, code)
      ensures code == 0 || code == 4 ==>
        (t.Copy? || t.CopyAdd? <==> PointsInside(y * g.stride + x + g.mv[S.bytes(old(cur).byte)], log2w, log2h))
      ensures forall r, c :: y <= r < y + Pow2(log2h) && x <= c < x + Pow2(log2w) && t.Copy? ==>
        CopiedFrom(g.stride, last, Pixels(), r, c, g.mv[t.vector])
      ensures forall r, c :: y <= r < y + Pow2(log2h) && x <= c < x + Pow2(log2w) && t.Still? && !g.newer ==>
        CopiedFrom(g.stride, last, Pixels(), r, c, 0)
      ensures forall r, c :: y <= r < y + Pow2(log2h) && x <= c < x + Pow2(log2w) && t.CopyAdd? ==>
        AddedFrom(g.stride, last, Pixels(), log2w, x, t.dc, r, c, g.mv[t.vector])
    {
      ghost var before := Pixels();
      t := DecodeByCode(code, y, x, log2w, log2h);
      DrawnOne(g, last, before, Pixels(), Leaf(y, x, log2w, log2h, t));
      LeafShown(g, last, before, Pixels(), Leaf(y, x, log2w, log2h, t));
    }

    method DecodeByCode(code: nat, y: nat, x: nat, log2w: nat, log2h: nat) returns (ghost t: Tree)
      requires Valid() && SizeOk(log2w, log2h) && Fits(y, x, log2w, log2h)
      requires Allowed(code, log2w, log2h) && code != 1 && code != 2
      modifies this, dst
      ensures Legal(g, t, y, x, log2w, log2h) && Symbol(t) == code && !t.SplitRows? && !t.SplitColumns?
      ensures cur == Advance(old(cur), 0, |LeafBytes(t)|, |LeafWords(t)|)
      ensures Holds(S.bytes, old(cur).byte, LeafBytes(t)) && Holds(S.words, old(cur).word, LeafWords(t))
      ensures DrewOne(g, last, old(Pixels()), Pixels(), Leaf(y, x, log2w, log2h, t))
      ensures CodeOf(t, code)
      ensures code == 0 || code == 4 ==>
        (t.Copy? || t.CopyAdd? <==> PointsInside(y * g.stride + x + g.mv[S.bytes(old(cur).byte)], log2w, log2h))
    {
      if code == 0 || code == 4 {
        t := DecodeCopy(code, y, x, log2w, log2h);
      } else if code == 3 {
        t := DecodeStill(y, x, log2w, log2h);
      } else if code == 5 {
        t := DecodeFill(y, x, log2w, log2h);
      } else {
        t := DecodePair(y, x, log2w, log2h);
      }
    }

    method DecodeStill(y: nat, x: nat, log2w: nat, log2h: nat) returns (ghost t: Tree)
      requires Valid() && SizeOk(log2w, log2h) && Fits(y, x, log2w, log2h)
      modifies dst
      ensures t == Still && DrewOne(g, last, old(Pixels()), Pixels(), Leaf(y, x, log2w, log2h, t))
    {
      t := Still;
      if !g.newer {
        InPlaceReadable(g, last, y, x, log2w, log2h);
        MoveBlock(y, x, y * g.stride + x, log2w, log2h, 0);
        MoveDrew(g, last, old(Pixels()), Pixels(), y * g.stride + x, 0, Leaf(y, x, log2w, log2h, t));
      } else {
        assert old(Pixels()) == Pixels();
      }
    }

    method DecodeFill(y: nat, x: nat, log2w: nat, log2h: nat) returns (ghost t: Tree)
      requires Valid() && SizeOk(log2w, log2h) && Fits(y, x, log2w, log2h)
      modifies this`cur, dst
      ensures t == Fill(S.words(old(cur).word)) && cur == Advance(old(cur), 0, 0, 1)
      ensures DrewOne(g, last, old(Pixels()), Pixels(), Leaf(y, x, log2w, log2h, t))
    {
      var dc := NextWord();
      t := Fill(dc);
      FillWith(y, x, log2w, log2h, dc);
    }

    method DecodeCopy(code: nat, y: nat, x: nat, log2w: nat, log2h: nat) returns (ghost t: Tree)
      requires Valid() && SizeOk(log2w, log2h) && Fits(y, x, log2w, log2h) && (code == 0 || code == 4)
      modifies this`cur, dst
      ensures Legal(g, t, y, x, log2w, log2h) && Symbol(t) == code && CodeOf(t, code)
      ensures cur == Advance(old(cur), 0, |LeafBytes(t)|, |LeafWords(t)|)
      ensures Holds(S.bytes, old(cur).byte, LeafBytes(t)) && Holds(S.words, old(cur).word, LeafWords(t))
      ensures DrewOne(g, last, old(Pixels()), Pixels(), Leaf(y, x, log2w, log2h, t))
      ensures t.Copy? || t.CopyAdd? <==> PointsInside(y * g.stride + x + g.mv[S.bytes(old(cur).byte)], log2w, log2h)
    {
      var v := NextByte();
      var src := Source(g, y, x, v);
      InPictureIff(g, src, log2w, log2h);
      if !InPicture(g, src, log2w, log2h) {
        t := if code == 0 then OffCopy(v) else OffCopyAdd(v);
        assert old(Pixels()) == Pixels();
        return;
      }
      SourceReadable(g, last, src, log2w, log2h);
      var dc: Word16 := 0;
      if code == 0 {
        t := Copy(v);
      } else {
        dc := NextWord();
        t := CopyAdd(v, dc);
      }
      MoveBlock(y, x, src, log2w, log2h, dc);
      MoveDrew(g, last, old(Pixels()), Pixels(), src, dc, Leaf(y, x, log2w, log2h, t));
    }

    method MoveBlock(y: nat, x: nat, src: int, lw: nat, lh: nat, dc: Word16)
      requires Valid() && lw < 4 && lh < 4 && Fits(y, x, lw, lh) && ReadableFrom(g, last, src, lw, lh)
      modifies dst
      ensures MovedTo(g, last, old(Pixels()), Pixels(), y, x, src, lw, lh, dc)
    {
      Move(y, x, src, lw, lh, dc);
    }

    method DecodePair(y: nat, x: nat, log2w: nat, log2h: nat) returns (ghost t: Tree)
      requires Valid() && log2w + log2h == 1 && Fits(y, x, log2w, log2h)
      modifies this`cur, dst
      ensures t.Pair? && cur == Advance(old(cur), 0, 0, 2)
      ensures t.first == S.words(old(cur).word) && t.second == S.words(old(cur).word + 1)
      ensures DrewOne(g, last, old(Pixels()), Pixels(), Leaf(y, x, log2w, log2h, t))
    {
      var p := NextWord();
      var q := NextWord();
      t := Pair(p, q);
      StorePair(y, x, log2w, p, q);
      PairDrew(g, last, old(Pixels()), Pixels(), y, x, log2w, log2h, p, q);
    }

    /** Two pixels, side by side or one below the other. */
    method StorePair(y: nat, x: nat, log2w: nat, p: Word16, q: Word16)
      requires Valid() && (if log2w > 0 then y < g.rows && x + 1 < g.stride else y + 1 < g.rows && x < g.stride)
      modifies dst
      ensures StoredPair(g, old(Pixels()), Pixels(), y, x, log2w, p, q)
    {
      dst[y, x] := p;
      if log2w > 0 {
        dst[y, x + 1] := q;
      } else {
        dst[y + 1, x] := q;
      }
    }
  }

  /** The codes of the format: 0 copies, 1 and 2 split, 3 skips, 4 copies with an addition, 5 fills, 6 gives both pixels
      of a pair. */
  ghost predicate CodeOf(t: Tree, code: nat) {
    && (code == 0 <==> t.Copy? || t.OffCopy?) && (code == 1 <==> t.SplitRows?) && (code == 2 <==> t.SplitColumns?)
    && (code == 3 <==> t.Still?) && (code == 4 <==> t.CopyAdd? || t.OffCopyAdd?) && (code == 5 <==> t.Fill?)
    && (code == 6 <==> t.Pair?)
  }

  /** A leaf drawn alone, in terms of the last picture. */
  lemma LeafShown(g: Geometry, last: seq<Word16>, before: Picture, after: Picture, l: Leaf)
    requires InBuffer(g, last, l) && DrewOne(g, last, before, after, l)
    ensures forall r, c :: InBlock(l.y, l.x, l.lw, l.lh, r, c) && l.what.Copy? ==>
      CopiedFrom(g.stride, last, after, r, c, g.mv[l.what.vector])
    ensures forall r, c :: InBlock(l.y, l.x, l.lw, l.lh, r, c) && l.what.Still? && !g.newer ==>
      CopiedFrom(g.stride, last, after, r, c, 0)
    ensures forall r, c :: InBlock(l.y, l.x, l.lw, l.lh, r, c) && l.what.CopyAdd? ==>
      AddedFrom(g.stride, last, after, l.lw, l.x, l.what.dc, r, c, g.mv[l.what.vector])
  {
    forall r, c | InBlock(l.y, l.x, l.lw, l.lh, r, c) && l.what.Copy?
      ensures CopiedFrom(g.stride, last, after, r, c, g.mv[l.what.vector])
    {
      CopyShows(g, last, l, r, c);
    }
    forall r, c | InBlock(l.y, l.x, l.lw, l.lh, r, c) && l.what.Still? && !g.newer
      ensures CopiedFrom(g.stride, last, after, r, c, 0)
    {
      StillShows(g, last, l, r, c);
    }
    forall r, c | InBlock(l.y, l.x, l.lw, l.lh, r, c) && l.what.CopyAdd?
      ensures AddedFrom(g.stride, last, after, l.lw, l.x, l.what.dc, r, c, g.mv[l.what.vector])
    {
      CopyAddShows(g, last, l, r, c, r * g.stride + c + g.mv[l.what.vector]);
    }
  }

  /** The pixel is the one of the last picture that is the displacement away. */
  ghost predicate CopiedFrom(stride: nat, last: seq<Word16>, after: Picture, r: int, c: int, displacement: int)
    requires 0 <= r < |after| && 0 <= c < |after[r]|
  {
    var p := r * stride + c + displacement;
    0 <= p < |last| && after[r][c] == last[p]
  }

  /** In a block as wide as lw says, from column x on: the pixel is the sum of what the last picture has the
      displacement away and of dc, or in a wider block, if a pair begins at it, the pair is, as one 32-bit word. */
  ghost predicate AddedFrom(stride: nat, last: seq<Word16>, after: Picture, lw: nat, x: nat, dc: Word16, r: int, c: int,
                            displacement: int)
    requires 0 <= r < |after| && 0 <= c < |after[r]|
  {
    var p := r * stride + c + displacement;
    && 0 <= p < |last|
    && (lw == 0 ==> after[r][c] == (last[p] + dc) % 0x1_0000)
    && (lw > 0 && (c - x) % 2 == 0 ==>
          && c + 1 < |after[r]| && p + 1 < |last|
          && var low: nat, high: nat := after[r][c], after[r][c + 1];
             low + 0x1_0000 * high == (last[p] + 0x1_0000 * last[p + 1] + dc * 0x1_0001) % 0x1_0000_0000)
  }

  ghost predicate StoredPair(g: Geometry, before: Picture, after: Picture, y: nat, x: nat, log2w: nat, p: Word16,
                             q: Word16) {
    && Rectangular(g, before) && Rectangular(g, after)
    && forall r, c :: 0 <= r < g.rows && 0 <= c < g.stride ==>
         after[r][c] == if r == y && c == x then p
                        else if (if log2w > 0 then r == y && c == x + 1 else r == y + 1 && c == x) then q
                        else before[r][c]
  }

  lemma PairDrew(g: Geometry, last: seq<Word16>, before: Picture, after: Picture, y: nat, x: nat, lw: nat, lh: nat,
                 p: Word16, q: Word16)
    requires |g.mv| == 256 && lw + lh == 1 && StoredPair(g, before, after, y, x, lw, p, q)
    ensures DrewOne(g, last, before, after, Leaf(y, x, lw, lh, Pair(p, q)))
  {
    assert Pow2(0) == 1 && Pow2(1) == 2;
  }

  ghost predicate MovedTo(g: Geometry, last: seq<Word16>, before: Picture, after: Picture,
      y: nat, x: nat, src: int, lw: nat, lh: nat, dc: Word16)
  {
    && Rectangular(g, before) && Rectangular(g, after)
    && forall r, c :: 0 <= r < g.rows && 0 <= c < g.stride ==>
         after[r][c]
         == if InBlock(y, x, lw, lh, r, c) then MovedPixel(g.stride, last, src, lw, r - y, c - x, dc)
            else before[r][c]
  }

  /** A block moved from its source is the leaf that says so. */
  lemma MoveDrew(g: Geometry, last: seq<Word16>, before: Picture, after: Picture, src: int, dc: Word16, l: Leaf)
    requires |g.mv| == 256 && MovedTo(g, last, before, after, l.y, l.x, src, l.lw, l.lh, dc) && Writes(g.newer, l.what)
    requires
      match l.what
      case Copy(v) => src == Source(g, l.y, l.x, v) && dc == 0
      case CopyAdd(v, d) => src == Source(g, l.y, l.x, v) && dc == d
      case Still => src == l.y * g.stride + l.x && dc == 0
      case _ => false
    ensures DrewOne(g, last, before, after, l)
  {
  }

  // ---- Whole frames ----

  /** Where the streams stand after a sequence of 8x8 blocks. */
  function AfterBlocks(S: Streams, cur: Cursor, ts: seq<Tree>): Cursor
    decreases |ts|
  {
    if ts == [] then cur else After(S, AfterBlocks(S, cur, ts[..|ts| - 1]), ts[|ts| - 1], 3, 3)
  }

  ghost predicate ReadsBlocks(S: Streams, cur: Cursor, ts: seq<Tree>)
    decreases |ts|
  {
    ts != [] ==>
      && ReadsBlocks(S, cur, ts[..|ts| - 1])
      && Reads(S, AfterBlocks(S, cur, ts[..|ts| - 1]), ts[|ts| - 1], 3, 3)
  }

  function AfterRows(S: Streams, cur: Cursor, rows: seq<seq<Tree>>): Cursor
    decreases |rows|
  {
    if rows == [] then cur else AfterBlocks(S, AfterRows(S, cur, rows[..|rows| - 1]), rows[|rows| - 1])
  }

  ghost predicate ReadsRows(S: Streams, cur: Cursor, rows: seq<seq<Tree>>)
    decreases |rows|
  {
    rows != [] ==>
      && ReadsRows(S, cur, rows[..|rows| - 1])
      && ReadsBlocks(S, AfterRows(S, cur, rows[..|rows| - 1]), rows[|rows| - 1])
  }

  /** rows is what the streams held from position from up to position to, and turns picture before into after. */
  ghost predicate Decoded(g: Geometry, S: Streams, last: seq<Word16>, columns: nat, rows: seq<seq<Tree>>,
      from: Cursor, to: Cursor, before: Picture, after: Picture)
  {
    && LegalFrame(g, rows, columns)
    && ReadsRows(S, from, rows) && to == AfterRows(S, from, rows)
    && Drawn(g, last, before, after, FrameLeaves(rows))
  }

  lemma RowDecoded(g: Geometry, S: Streams, last: seq<Word16>, columns: nat, rows: seq<seq<Tree>>, row: seq<Tree>,
      from: Cursor, mid: Cursor, to: Cursor, before: Picture, between: Picture, after: Picture)
    requires Decoded(g, S, last, columns, rows, from, mid, before, between)
    requires |row| == columns && RowRead(g, S, last, row, 8 * |rows|, mid, to, between, after)
    ensures Decoded(g, S, last, columns, rows + [row], from, to, before, after)
    ensures FrameLeaves(rows + [row]) == FrameLeaves(rows) + RowLeaves(row, 8 * |rows|)
  {
    RowAppended(g, S, columns, rows, row, from, mid);
    DrawnTwice(g, last, before, between, after, FrameLeaves(rows), RowLeaves(row, 8 * |rows|));
  }

  lemma RowAppended(g: Geometry, S: Streams, columns: nat, rows: seq<seq<Tree>>, row: seq<Tree>, from: Cursor,
                    mid: Cursor)
    requires LegalFrame(g, rows, columns) && ReadsRows(S, from, rows) && mid == AfterRows(S, from, rows)
    requires |row| == columns && LegalRow(g, row, 8 * |rows|) && ReadsBlocks(S, mid, row)
    ensures LegalFrame(g, rows + [row], columns) && ReadsRows(S, from, rows + [row])
    ensures AfterRows(S, from, rows + [row]) == AfterBlocks(S, mid, row)
    ensures FrameLeaves(rows + [row]) == FrameLeaves(rows) + RowLeaves(row, 8 * |rows|)
  {
    assert (rows + [row])[..|rows|] == rows;
  }

  lemma BlockAppended(g: Geometry, S: Streams, cur: Cursor, row: seq<Tree>, t: Tree, y: nat)
    requires LegalRow(g, row, y) && Legal(g, t, y, 8 * |row|, 3, 3)
    requires ReadsBlocks(S, cur, row) && Reads(S, AfterBlocks(S, cur, row), t, 3, 3)
    ensures LegalRow(g, row + [t], y) && ReadsBlocks(S, cur, row + [t])
    ensures AfterBlocks(S, cur, row + [t]) == After(S, AfterBlocks(S, cur, row), t, 3, 3)
    ensures RowLeaves(row + [t], y) == RowLeaves(row, y) + Leaves(t, y, 8 * |row|, 3, 3)
  {
    assert (row + [t])[..|row|] == row;
  }

  /** How many 8x8 blocks cover so many pixels. */
  function Blocks(n: nat): nat {
    (n + 7) / 8
  }

  /** The block loop of decode_p_frame. Where a side is no multiple of 8 the last blocks reach past the picture, into
      the buffer. */
  method DecodePFrame(d: Decoder, width: nat, height: nat) returns (ghost rows: seq<seq<Tree>>)
    requires d.Valid() && height == d.g.height && 8 * Blocks(width) <= d.g.stride && 8 * Blocks(height) <= d.g.rows
    modifies d, d.dst
    ensures |rows| == Blocks(height)
    ensures Decoded(d.g, d.S, d.last, Blocks(width), rows, old(d.cur), d.cur, old(d.Pixels()), d.Pixels())
  {
    rows := [];
    var y := 0;
    ghost var before, cur0 := d.Pixels(), d.cur;
    while y < height
      invariant y == 8 * |rows| && |rows| <= Blocks(height)
      invariant Decoded(d.g, d.S, d.last, Blocks(width), rows, cur0, d.cur, before, d.Pixels())
    {
      ghost var between, mid := d.Pixels(), d.cur;
      ghost var row := DecodeRow(d, width, y);
      RowDecoded(d.g, d.S, d.last, Blocks(width), rows, row, cur0, mid, d.cur, before, between, d.Pixels());
      rows := rows + [row];
      y := y + 8;
    }
  }

  /** row is what the streams held from position from up to position to, drawn over before. */
  ghost predicate RowRead(g: Geometry, S: Streams, last: seq<Word16>, row: seq<Tree>, y: nat, from: Cursor, to: Cursor,
      before: Picture, after: Picture)
  {
    && LegalRow(g, row, y)
    && ReadsBlocks(S, from, row) && to == AfterBlocks(S, from, row)
    && Drawn(g, last, before, after, RowLeaves(row, y))
  }

  lemma RowReadOn(g: Geometry, S: Streams, last: seq<Word16>, row: seq<Tree>, t: Tree, y: nat, from: Cursor,
                  mid: Cursor, to: Cursor,
      before: Picture, between: Picture, after: Picture)
    requires RowRead(g, S, last, row, y, from, mid, before, between)
    requires Legal(g, t, y, 8 * |row|, 3, 3) && Reads(S, mid, t, 3, 3) && to == After(S, mid, t, 3, 3)
    requires Drawn(g, last, between, after, Leaves(t, y, 8 * |row|, 3, 3))
    ensures RowRead(g, S, last, row + [t], y, from, to, before, after)
    ensures RowLeaves(row + [t], y) == RowLeaves(row, y) + Leaves(t, y, 8 * |row|, 3, 3)
  {
    BlockAppended(g, S, from, row, t, y);
    DrawnTwice(g, last, before, between, after, RowLeaves(row, y), Leaves(t, y, 8 * |row|, 3, 3));
  }

  method DecodeRow(d: Decoder, width: nat, y: nat) returns (ghost row: seq<Tree>)
    requires d.Valid() && y + 8 <= d.g.rows && 8 * Blocks(width) <= d.g.stride
    modifies d, d.dst
    ensures |row| == Blocks(width)
    ensures RowRead(d.g, d.S, d.last, row, y, old(d.cur), d.cur, old(d.Pixels()), d.Pixels())
  {
    row := [];
    var x := 0;
    ghost var before, cur0 := d.Pixels(), d.cur;
    while x < width
      invariant x == 8 * |row| && |row| <= Blocks(width)
      invariant RowRead(d.g, d.S, d.last, row, y, cur0, d.cur, before, d.Pixels())
    {
      ghost var between, mid := d.Pixels(), d.cur;
      assert Pow2(3) == 8;
      ghost var t := d.DecodePBlock(y, x, 3, 3);
      RowReadOn(d.g, d.S, d.last, row, t, y, cur0, mid, d.cur, before, between, d.Pixels());
      row := row + [t];
      x := x + 8;
    }
  }

  /** The leaves of a row of 8x8 blocks whose top is y, from left to right. */
  function RowLeaves(row: seq<Tree>, y: nat): seq<Leaf>
    decreases |row|
  {
    if row == [] then []
    else RowLeaves(row[..|row| - 1], y) + Leaves(row[|row| - 1], y, 8 * (|row| - 1), 3, 3)
  }

  function FrameLeaves(rows: seq<seq<Tree>>): seq<Leaf>
    decreases |rows|
  {
    if rows == [] then []
    else FrameLeaves(rows[..|rows| - 1]) + RowLeaves(rows[|rows| - 1], 8 * (|rows| - 1))
  }

  ghost predicate LegalRow(g: Geometry, row: seq<Tree>, y: nat) {
    forall k :: 0 <= k < |row| ==> Legal(g, row[k], y, 8 * k, 3, 3)
  }

  ghost predicate LegalFrame(g: Geometry, rows: seq<seq<Tree>>, columns: nat) {
    forall k :: 0 <= k < |rows| ==> |rows[k]| == columns && LegalRow(g, rows[k], 8 * k)
  }

  lemma {:induction false} RowTiles(g: Geometry, row: seq<Tree>, y: nat, r: int, c: int)
    requires LegalRow(g, row, y)
    ensures Stores(g.newer, RowLeaves(row, y), r, c)
      == if 0 <= c < 8 * |row| then Stores(g.newer, Leaves(row[c / 8], y, 8 * (c / 8), 3, 3), r, c) else 0
    decreases |row|
  {
    if row == [] {
    } else {
      var n := |row| - 1;
      RowTiles(g, row[..n], y, r, c);
      StoresAppend(g.newer, RowLeaves(row[..n], y), Leaves(row[n], y, 8 * n, 3, 3), r, c);
      assert Pow2(3) == 8;
      LeavesTile(g, row[n], y, 8 * n, 3, 3, r, c);
    }
  }

  lemma RowKeepsOff(g: Geometry, row: seq<Tree>, y: nat, r: int, c: int)
    requires LegalRow(g, row, y) && !(y <= r < y + 8 && 0 <= c < 8 * |row|)
    ensures Stores(g.newer, RowLeaves(row, y), r, c) == 0
  {
    RowTiles(g, row, y, r, c);
    if 0 <= c < 8 * |row| {
      assert Pow2(3) == 8;
      LeavesTile(g, row[c / 8], y, 8 * (c / 8), 3, 3, r, c);
    }
  }

  lemma {:induction false} FrameStores(g: Geometry, rows: seq<seq<Tree>>, columns: nat, r: int, c: int)
    requires LegalFrame(g, rows, columns)
    ensures Stores(g.newer, FrameLeaves(rows), r, c)
      == if 0 <= r < 8 * |rows| then Stores(g.newer, RowLeaves(rows[r / 8], 8 * (r / 8)), r, c) else 0
    decreases |rows|
  {
    if rows == [] {
    } else {
      var n := |rows| - 1;
      FrameStores(g, rows[..n], columns, r, c);
      StoresAppend(g.newer, FrameLeaves(rows[..n]), RowLeaves(rows[n], 8 * n), r, c);
      if r / 8 != n {
        RowKeepsOff(g, rows[n], 8 * n, r, c);
      }
    }
  }

  /** Over a whole frame no pixel is stored twice, none outside the blocks is stored, and every pixel of the
      frame is stored exactly once when no leaf is a skip or an out-of-picture vector. */
  lemma FrameTiles(g: Geometry, rows: seq<seq<Tree>>, columns: nat, r: int, c: int)
    requires LegalFrame(g, rows, columns)
    ensures Stores(g.newer, FrameLeaves(rows), r, c) <= 1
    ensures !(0 <= r < 8 * |rows| && 0 <= c < 8 * columns) ==> Stores(g.newer, FrameLeaves(rows), r, c) == 0
    ensures 0 <= r < 8 * |rows| && 0 <= c < 8 * columns && Complete(g.newer, rows[r / 8][c / 8])
      ==> Stores(g.newer, FrameLeaves(rows), r, c) == 1
  {
    FrameStores(g, rows, columns, r, c);
    if 0 <= r < 8 * |rows| {
      var row, y := rows[r / 8], 8 * (r / 8);
      RowTiles(g, row, y, r, c);
      if 0 <= c < 8 * columns {
        assert Pow2(3) == 8;
        LeavesTile(g, row[c / 8], y, 8 * (c / 8), 3, 3, r, c);
      }
    }
  }

  /** A pixel that is stored once ends up with what the one leaf stores there. */
  lemma {:induction false} PaintedByItsLeaf(g: Geometry, last: seq<Word16>, ls: seq<Leaf>, k: nat, r: int, c: int,
                                            before: Word16)
    requires |g.mv| == 256 && k < |ls| && Stores(g.newer, ls, r, c) <= 1
    requires Writes(g.newer, ls[k].what) && InBlock(ls[k].y, ls[k].x, ls[k].lw, ls[k].lh, r, c)
    ensures Painted(g, last, ls, r, c, before) == LeafPixel(g, last, ls[k], r, c)
    decreases |ls|
  {
    var n := |ls| - 1;
    assert ls == ls[..n] + [ls[n]];
    StoresAppend(g.newer, ls[..n], [ls[n]], r, c);
    if n <= k {
    } else {
      PaintedByItsLeaf(g, last, ls[..n], k, r, c, before);
      StoredSomewhere(g, ls[..n], k, r, c);
      assert Stores(g.newer, [ls[n]], r, c) == 0;
    }
  }

  lemma {:induction false} StoredSomewhere(g: Geometry, ls: seq<Leaf>, k: nat, r: int, c: int)
    requires k < |ls| && Writes(g.newer, ls[k].what) && InBlock(ls[k].y, ls[k].x, ls[k].lw, ls[k].lh, r, c)
    ensures Stores(g.newer, ls, r, c) >= 1
    decreases |ls|
  {
    if k == 0 {
    } else {
      StoredSomewhere(g, ls[1..], k - 1, r, c);
    }
  }

  lemma SourceReadable(g: Geometry, last: seq<Word16>, src: int, lw: nat, lh: nat)
    requires |last| == g.rows * g.stride && g.height <= g.rows && InPicture(g, src, lw, lh)
    ensures ReadableFrom(g, last, src, lw, lh)
  {
    assert g.stride * (g.height - Pow2(lh) + 1) == g.height * g.stride - (Pow2(lh) - 1) * g.stride;
    assert g.height * g.stride <= g.rows * g.stride;
  }

  lemma RowsBelow(y: nat, h: nat, height: nat, stride: nat)
    requires y + h <= height && 0 < h
    ensures y * stride + (h - 1) * stride + stride <= height * stride
  {
    assert (y + h) * stride <= height * stride;
    assert (y + h) * stride == y * stride + (h - 1) * stride + stride;
  }

  lemma InPlaceReadable(g: Geometry, last: seq<Word16>, y: nat, x: nat, lw: nat, lh: nat)
    requires |last| == g.rows * g.stride && y + Pow2(lh) <= g.rows && x + Pow2(lw) <= g.stride && 0 < Pow2(lh)
    ensures ReadableFrom(g, last, y * g.stride + x, lw, lh)
  {
    RowsBelow(y, Pow2(lh), g.rows, g.stride);
  }

  lemma RowReadable(stride: nat, n: nat, src: int, w: nat, h: nat, i: nat)
    requires 0 <= src && i < h && src + (h - 1) * stride + w <= n
    ensures 0 <= src + i * stride && src + i * stride + w <= n
  {
    assert i * stride <= (h - 1) * stride;
  }
}
