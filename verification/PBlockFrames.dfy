// What a frame decoded by decode_p_frame of 4xm.c shows, pixel by pixel, in terms of the last picture and the words
// read.
module PBlockFrames {
  import opened Bits
  import opened PBlockTree
  import opened PBlock

  // ---- Every pixel of a block lies in exactly one leaf ----

  function Covering(ls: seq<Leaf>, r: int, c: int): nat {
    if ls == [] then 0
    else (if InBlock(ls[0].y, ls[0].x, ls[0].lw, ls[0].lh, r, c) then 1 else 0) + Covering(ls[1..], r, c)
  }

  lemma {:induction false} CoveringAppend(a: seq<Leaf>, b: seq<Leaf>, r: int, c: int)
    ensures Covering(a + b, r, c) == Covering(a, r, c) + Covering(b, r, c)
  {
    if a == [] {
      assert a + b == b;
    } else {
      assert (a + b)[1..] == a[1..] + b;
      CoveringAppend(a[1..], b, r, c);
    }
  }

  /** The leaves of a legal block cover each of its pixels once, and no other pixel. */
  lemma {:induction false} LeavesCover(g: Geometry, t: Tree, y: nat, x: nat, lw: nat, lh: nat, r: int, c: int)
    requires Legal(g, t, y, x, lw, lh)
    ensures Covering(Leaves(t, y, x, lw, lh), r, c) == if InBlock(y, x, lw, lh, r, c) then 1 else 0
    decreases t, 1
  {
    match t {
      case SplitRows(a, b) =>
        RowsCover(g, a, b, y, x, lw, lh - 1, r, c);
      case SplitColumns(a, b) =>
        ColumnsCover(g, a, b, y, x, lw - 1, lh, r, c);
      case _ =>
        OneLeafCovers(Leaf(y, x, lw, lh, t), r, c);
    }
  }

  lemma {:induction false} RowsCover(g: Geometry, a: Tree, b: Tree, y: nat, x: nat, lw: nat, h: nat, r: int, c: int)
    requires Legal(g, a, y, x, lw, h) && Legal(g, b, y + Pow2(h), x, lw, h)
    ensures Covering(Leaves(SplitRows(a, b), y, x, lw, h + 1), r, c)
         == if InBlock(y, x, lw, h + 1, r, c) then 1 else 0
    decreases SplitRows(a, b), 0
  {
    var below := y + Pow2(h);
    var la, lb := Leaves(a, y, x, lw, h), Leaves(b, below, x, lw, h);
    LeavesCover(g, a, y, x, lw, h, r, c);
    LeavesCover(g, b, below, x, lw, h, r, c);
    LeavesOfRows(a, b, y, x, lw, h);
    CoveringAppend(la, lb, r, c);
    UpperOrLower(y, below, x, lw, h, r, c);
  }

  lemma UpperOrLower(y: nat, below: nat, x: nat, lw: nat, h: nat, r: int, c: int)
    requires below == y + Pow2(h)
    ensures InBlock(y, x, lw, h + 1, r, c) <==> InBlock(y, x, lw, h, r, c) || InBlock(below, x, lw, h, r, c)
    ensures !(InBlock(y, x, lw, h, r, c) && InBlock(below, x, lw, h, r, c))
  {
    assert Pow2(h + 1) == 2 * Pow2(h);
  }

  lemma {:induction false} ColumnsCover(g: Geometry, a: Tree, b: Tree, y: nat, x: nat, w: nat, lh: nat, r: int, c: int)
    requires Legal(g, a, y, x, w, lh) && Legal(g, b, y, x + Pow2(w), w, lh)
    ensures Covering(Leaves(SplitColumns(a, b), y, x, w + 1, lh), r, c)
         == if InBlock(y, x, w + 1, lh, r, c) then 1 else 0
    decreases SplitColumns(a, b), 0
  {
    var right := x + Pow2(w);
    var la, lb := Leaves(a, y, x, w, lh), Leaves(b, y, right, w, lh);
    LeavesCover(g, a, y, x, w, lh, r, c);
    LeavesCover(g, b, y, right, w, lh, r, c);
    LeavesOfColumns(a, b, y, x, w, lh);
    CoveringAppend(la, lb, r, c);
    LeftOrRight(y, x, right, w, lh, r, c);
  }

  lemma LeftOrRight(y: nat, x: nat, right: nat, w: nat, lh: nat, r: int, c: int)
    requires right == x + Pow2(w)
    ensures InBlock(y, x, w + 1, lh, r, c) <==> InBlock(y, x, w, lh, r, c) || InBlock(y, right, w, lh, r, c)
    ensures !(InBlock(y, x, w, lh, r, c) && InBlock(y, right, w, lh, r, c))
  {
    assert Pow2(w + 1) == 2 * Pow2(w);
  }

  lemma OneLeafCovers(l: Leaf, r: int, c: int)
    ensures Covering([l], r, c) == if InBlock(l.y, l.x, l.lw, l.lh, r, c) then 1 else 0
  {
    assert [l][1..] == [];
  }

  lemma {:induction false} RowCovers(g: Geometry, row: seq<Tree>, y: nat, r: int, c: int)
    requires LegalRow(g, row, y)
    ensures Covering(RowLeaves(row, y), r, c) == if y <= r < y + 8 && 0 <= c < 8 * |row| then 1 else 0
    decreases |row|
  {
    if row == [] {
    } else {
      var n := |row| - 1;
      RowCovers(g, row[..n], y, r, c);
      CoveringAppend(RowLeaves(row[..n], y), Leaves(row[n], y, 8 * n, 3, 3), r, c);
      LeavesCover(g, row[n], y, 8 * n, 3, 3, r, c);
      assert Pow2(3) == 8;
    }
  }

  lemma {:induction false} FrameCovers(g: Geometry, rows: seq<seq<Tree>>, columns: nat, r: int, c: int)
    requires LegalFrame(g, rows, columns)
    ensures Covering(FrameLeaves(rows), r, c) == if 0 <= r < 8 * |rows| && 0 <= c < 8 * columns then 1 else 0
    decreases |rows|
  {
    if rows == [] {
    } else {
      var n := |rows| - 1;
      FrameCovers(g, rows[..n], columns, r, c);
      CoveringAppend(FrameLeaves(rows[..n]), RowLeaves(rows[n], 8 * n), r, c);
      RowCovers(g, rows[n], 8 * n, r, c);
    }
  }

  /** The leaf that covers a pixel; no other one does, before or after it. */
  lemma {:induction false} CoveringLeaf(ls: seq<Leaf>, r: int, c: int) returns (k: nat)
    requires Covering(ls, r, c) == 1
    ensures k < |ls| && InBlock(ls[k].y, ls[k].x, ls[k].lw, ls[k].lh, r, c)
    ensures Covering(ls[..k], r, c) == 0 && Covering(ls[k + 1..], r, c) == 0
  {
    if InBlock(ls[0].y, ls[0].x, ls[0].lw, ls[0].lh, r, c) {
      k := 0;
    } else {
      k := CoveringLeaf(ls[1..], r, c);
      k := k + 1;
      assert ls[..k] == [ls[0]] + ls[1..][..k - 1] && ls[1..][k..] == ls[k + 1..];
      CoveringAppend([ls[0]], ls[1..][..k - 1], r, c);
      OneLeafCovers(ls[0], r, c);
    }
  }

  /** Leaves that do not cover a pixel leave it as it was. */
  lemma {:induction false} Uncovered(g: Geometry, last: seq<Word16>, ls: seq<Leaf>, r: int, c: int, before: Word16)
    requires |g.mv| == 256 && Covering(ls, r, c) == 0
    ensures Painted(g, last, ls, r, c, before) == before
    decreases |ls|
  {
    if ls == [] {
    } else {
      var n := |ls| - 1;
      assert ls == ls[..n] + [ls[n]];
      CoveringAppend(ls[..n], [ls[n]], r, c);
      OneLeafCovers(ls[n], r, c);
      Uncovered(g, last, ls[..n], r, c, before);
    }
  }

  /** A pixel is what its one leaf makes of it. */
  lemma PaintedByCover(g: Geometry, last: seq<Word16>, ls: seq<Leaf>, k: nat, r: int, c: int, before: Word16)
    requires |g.mv| == 256 && k < |ls| && Covering(ls[..k], r, c) == 0 && Covering(ls[k + 1..], r, c) == 0
    ensures Painted(g, last, ls, r, c, before) == LeafOver(g, last, ls[k], r, c, before)
  {
    var a := ls[..k] + [ls[k]];
    assert ls == a + ls[k + 1..];
    PaintedAppend(g, last, a, ls[k + 1..], r, c, before);
    PaintedAppend(g, last, ls[..k], [ls[k]], r, c, before);
    Uncovered(g, last, ls[..k], r, c, before);
    Uncovered(g, last, ls[k + 1..], r, c, LeafOver(g, last, ls[k], r, c, before));
    assert [ls[k]][..0] == [];
  }

  // ---- The leaves of a frame lie in it ----

  ghost predicate LegalLeaf(g: Geometry, l: Leaf) {
    Legal(g, l.what, l.y, l.x, l.lw, l.lh) && !l.what.SplitRows? && !l.what.SplitColumns?
  }

  /** A leaf of the given block, itself as legal as a block. */
  ghost predicate LiesIn(g: Geometry, l: Leaf, y: nat, x: nat, height: nat, width: nat) {
    && LegalLeaf(g, l)
    && y <= l.y && l.y + Pow2(l.lh) <= y + height && x <= l.x && l.x + Pow2(l.lw) <= x + width
  }

  lemma {:induction false} LeavesLie(g: Geometry, t: Tree, y: nat, x: nat, lw: nat, lh: nat, k: nat)
    requires Legal(g, t, y, x, lw, lh) && k < |Leaves(t, y, x, lw, lh)|
    ensures LiesIn(g, Leaves(t, y, x, lw, lh)[k], y, x, Pow2(lh), Pow2(lw))
    decreases t
  {
    match t {
      case SplitRows(a, b) =>
        var h := lh - 1;
        var n := |Leaves(a, y, x, lw, h)|;
        LeavesOfRows(a, b, y, x, lw, h);
        if k < n {
          LeavesLie(g, a, y, x, lw, h, k);
          LiesWider(g, Leaves(a, y, x, lw, h)[k], y, x, Pow2(h), Pow2(lw), y, x, Pow2(lh), Pow2(lw));
        } else {
          var below := y + Pow2(h);
          LeavesLie(g, b, below, x, lw, h, k - n);
          LiesWider(g, Leaves(b, below, x, lw, h)[k - n], below, x, Pow2(h), Pow2(lw), y, x, Pow2(lh), Pow2(lw));
        }
      case SplitColumns(a, b) =>
        var w := lw - 1;
        var n := |Leaves(a, y, x, w, lh)|;
        LeavesOfColumns(a, b, y, x, w, lh);
        if k < n {
          LeavesLie(g, a, y, x, w, lh, k);
          LiesWider(g, Leaves(a, y, x, w, lh)[k], y, x, Pow2(lh), Pow2(w), y, x, Pow2(lh), Pow2(lw));
        } else {
          var right := x + Pow2(w);
          LeavesLie(g, b, y, right, w, lh, k - n);
          LiesWider(g, Leaves(b, y, right, w, lh)[k - n], y, right, Pow2(lh), Pow2(w), y, x, Pow2(lh), Pow2(lw));
        }
      case _ =>
    }
  }

  /** What lies in a part of a block lies in the block. */
  lemma LiesWider(g: Geometry, l: Leaf, y: nat, x: nat, height: nat, width: nat, y': nat, x': nat, height': nat,
                  width': nat)
    requires LiesIn(g, l, y, x, height, width)
    requires y' <= y && y + height <= y' + height' && x' <= x && x + width <= x' + width'
    ensures LiesIn(g, l, y', x', height', width')
  {
  }

  lemma {:induction false} RowLies(g: Geometry, row: seq<Tree>, y: nat, k: nat)
    requires LegalRow(g, row, y) && k < |RowLeaves(row, y)|
    ensures LiesIn(g, RowLeaves(row, y)[k], y, 0, 8, 8 * |row|)
    decreases |row|
  {
    var n := |row| - 1;
    var m := |RowLeaves(row[..n], y)|;
    if k < m {
      RowLies(g, row[..n], y, k);
    } else {
      assert Pow2(3) == 8;
      LeavesLie(g, row[n], y, 8 * n, 3, 3, k - m);
    }
  }

  lemma {:induction false} FrameLies(g: Geometry, rows: seq<seq<Tree>>, columns: nat, k: nat)
    requires LegalFrame(g, rows, columns) && k < |FrameLeaves(rows)|
    ensures LiesIn(g, FrameLeaves(rows)[k], 0, 0, 8 * |rows|, 8 * columns)
    decreases |rows|
  {
    var n := |rows| - 1;
    var m := |FrameLeaves(rows[..n])|;
    if k < m {
      FrameLies(g, rows[..n], columns, k);
    } else {
      RowLies(g, rows[n], 8 * n, k - m);
    }
  }

  // ---- The pixels of a frame ----

  /** The frame fits the buffer, which the last picture fills too. */
  ghost predicate FitsBuffer(g: Geometry, last: seq<Word16>, rows: nat, columns: nat) {
    |last| == g.rows * g.stride && g.height <= g.rows && 8 * rows <= g.rows && 8 * columns <= g.stride
  }

  /** Every pixel of a decoded frame lies in exactly one leaf, and is what this leaf says: copied from the last picture,
      the displacement of its vector away; kept, or in the older format copied from the same place; copied with an
      addition; or given by a word. */
  lemma FramePixel(g: Geometry, S: Streams, last: seq<Word16>, columns: nat, rows: seq<seq<Tree>>, from: Cursor,
                   to: Cursor, before: Picture, after: Picture, r: nat, c: nat) returns (l: Leaf)
    requires Decoded(g, S, last, columns, rows, from, to, before, after) && FitsBuffer(g, last, |rows|, columns)
    requires r < 8 * |rows| && c < 8 * columns
    ensures l in FrameLeaves(rows) && InBlock(l.y, l.x, l.lw, l.lh, r, c)
    ensures l.what.Copy? ==> CopiedFrom(g.stride, last, after, r, c, g.mv[l.what.vector])
    ensures l.what.CopyAdd? ==> AddedFrom(g.stride, last, after, l.lw, l.x, l.what.dc, r, c, g.mv[l.what.vector])
    ensures l.what.Still? ==>
      if g.newer then after[r][c] == before[r][c] else CopiedFrom(g.stride, last, after, r, c, 0)
    ensures l.what.Fill? ==> after[r][c] == l.what.dc
    ensures l.what.Pair? ==> after[r][c] == if r == l.y && c == l.x then l.what.first else l.what.second
    ensures l.what.OffCopy? || l.what.OffCopyAdd? ==> after[r][c] == before[r][c]
    ensures !l.what.SplitRows? && !l.what.SplitColumns?
  {
    FrameCovers(g, rows, columns, r, c);
    var k := CoveringLeaf(FrameLeaves(rows), r, c);
    l := FrameLeaves(rows)[k];
    FrameLies(g, rows, columns, k);
    LeafAt(g, last, rows, columns, before, after, k, r, c);
    if l.what.Copy? {
      CopyShows(g, last, l, r, c);
    } else if l.what.Still? && !g.newer {
      StillShows(g, last, l, r, c);
    } else if l.what.CopyAdd? {
      AddedAt(g, last, rows, columns, before, after, l, k, r, c);
    } else if l.what.Pair? {
      assert Pow2(0) == 1 && Pow2(1) == 2;
    }
  }

  lemma LeafAt(g: Geometry, last: seq<Word16>, rows: seq<seq<Tree>>, columns: nat, before: Picture, after: Picture,
               k: nat, r: nat, c: nat)
    requires LegalFrame(g, rows, columns) && Drawn(g, last, before, after, FrameLeaves(rows))
    requires FitsBuffer(g, last, |rows|, columns) && r < 8 * |rows| && c < 8 * columns && k < |FrameLeaves(rows)|
    requires var ls := FrameLeaves(rows); Covering(ls[..k], r, c) == 0 && Covering(ls[k + 1..], r, c) == 0
    ensures after[r][c] == LeafOver(g, last, FrameLeaves(rows)[k], r, c, before[r][c])
  {
    assert DrawnAt(g, last, before, after, FrameLeaves(rows), r, c);
    PaintedByCover(g, last, FrameLeaves(rows), k, r, c, before[r][c]);
  }

  /** Both pixels of a pair lie in the leaf. */
  lemma AddedAt(g: Geometry, last: seq<Word16>, rows: seq<seq<Tree>>, columns: nat, before: Picture, after: Picture,
                l: Leaf, k: nat, r: nat, c: nat)
    requires LegalFrame(g, rows, columns) && Drawn(g, last, before, after, FrameLeaves(rows))
    requires FitsBuffer(g, last, |rows|, columns) && k < |FrameLeaves(rows)| && l == FrameLeaves(rows)[k]
    requires LiesIn(g, l, 0, 0, 8 * |rows|, 8 * columns) && l.what.CopyAdd? && InBlock(l.y, l.x, l.lw, l.lh, r, c)
    requires after[r][c] == LeafOver(g, last, l, r, c, before[r][c])
    ensures AddedFrom(g.stride, last, after, l.lw, l.x, l.what.dc, r, c, g.mv[l.what.vector])
  {
    if l.lw > 0 && (c - l.x) % 2 == 0 {
      var d := c + 1;
      EvenWidth(l.lw, c - l.x);
      SameLeaf(FrameLeaves(rows), g, columns, rows, k, r, d);
      LeafAt(g, last, rows, columns, before, after, k, r, d);
    }
    AddedFromLeaf(g, last, after, l, r, c);
  }

  lemma AddedFromLeaf(g: Geometry, last: seq<Word16>, after: Picture, l: Leaf, r: nat, c: nat)
    requires InBuffer(g, last, l) && l.what.CopyAdd? && InBlock(l.y, l.x, l.lw, l.lh, r, c) && Rectangular(g, after)
    requires after[r][c] == LeafPixel(g, last, l, r, c)
    requires l.lw > 0 && (c - l.x) % 2 == 0 && InBlock(l.y, l.x, l.lw, l.lh, r, c + 1) ==>
      after[r][c + 1] == LeafPixel(g, last, l, r, c + 1)
    ensures AddedFrom(g.stride, last, after, l.lw, l.x, l.what.dc, r, c, g.mv[l.what.vector])
  {
    CopyAddShows(g, last, l, r, c, r * g.stride + c + g.mv[l.what.vector]);
  }

  lemma SameLeaf(ls: seq<Leaf>, g: Geometry, columns: nat, rows: seq<seq<Tree>>, k: nat, r: nat, c: nat)
    requires LegalFrame(g, rows, columns) && ls == FrameLeaves(rows) && k < |ls|
    requires InBlock(ls[k].y, ls[k].x, ls[k].lw, ls[k].lh, r, c)
    ensures Covering(ls[..k], r, c) == 0 && Covering(ls[k + 1..], r, c) == 0
  {
    FrameCovers(g, rows, columns, r, c);
    assert ls == ls[..k] + ([ls[k]] + ls[k + 1..]);
    CoveringAppend(ls[..k], [ls[k]] + ls[k + 1..], r, c);
    CoveringAppend([ls[k]], ls[k + 1..], r, c);
    OneLeafCovers(ls[k], r, c);
  }

  /** Pixels outside of the blocks are kept. */
  lemma OutsideKept(g: Geometry, S: Streams, last: seq<Word16>, columns: nat, rows: seq<seq<Tree>>, from: Cursor,
                    to: Cursor, before: Picture, after: Picture, r: nat, c: nat)
    requires Decoded(g, S, last, columns, rows, from, to, before, after)
    requires r < g.rows && c < g.stride && (8 * |rows| <= r || 8 * columns <= c)
    ensures after[r][c] == before[r][c]
  {
    FrameCovers(g, rows, columns, r, c);
    assert DrawnAt(g, last, before, after, FrameLeaves(rows), r, c);
    Uncovered(g, last, FrameLeaves(rows), r, c, before[r][c]);
  }
}
