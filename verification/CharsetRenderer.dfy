// The character set renderer of a64multienc.c: every character of 32 pixels is turned into bits of two interlaced rows,
// and is rendered again, with clamped pixels, when it would need a fifth colour at both ends of the gradient.
module CharsetRenderer {
  import opened Bits

  /** The brightness of the four or five colours in use, darkest first. */
  datatype Palette = Palette(luma: seq<int>, use5col: bool)
  {
    predicate Valid() {
      && |luma| == (if use5col then 5 else 4) && 0 <= luma[0] && luma[|luma| - 1] <= 255
      && forall i, j :: 0 <= i < j < |luma| ==> luma[i] < luma[j]
    }

    /** The number of the brightest colour, up to the k-th, that is not brighter than a. */
    function RankTo(a: int, k: nat): (r: nat)
      requires k < |luma|
      ensures r <= k && (r != 0 ==> luma[r] <= a)
    {
      if k == 0 || luma[k] <= a then k else RankTo(a, k - 1)
    }

    function Rank(a: int): (r: nat)
      requires luma != []
      ensures r < |luma| && (r != 0 ==> luma[r] <= a)
    {
      RankTo(a, |luma| - 1)
    }

    lemma {:induction false} RankToUnique(a: int, k: nat, i: nat)
      requires Valid() && i <= k < |luma|
      requires (i == 0 || luma[i] <= a) && (i + 1 < |luma| ==> a < luma[i + 1])
      ensures RankTo(a, k) == i
    {
      if k <= i {
      } else {
        assert i + 1 == k || luma[i + 1] < luma[k];
        RankToUnique(a, k - 1, i);
      }
    }

    /** The dithering step of a, between its colour and the next. */
    function Dither(a: int): (r: nat)
      requires Valid()
      ensures r < 8
    {
      var i := Rank(a);
      if i == |luma| - 1 || a < luma[0] then 0
      else
        RankToNext(a);
        Step(a - luma[i], luma[i + 1] - luma[i])
    }

    lemma RankToNext(a: int)
      requires Valid()
      ensures Rank(a) + 1 < |luma| ==> a < luma[Rank(a) + 1]
    {
      NotBelowRank(a, |luma| - 1, Rank(a) + 1);
    }

    lemma {:induction false} NotBelowRank(a: int, k: nat, j: nat)
      requires k < |luma| && RankTo(a, k) < j
      ensures j <= k ==> a < luma[j]
    {
      if k != 0 && a < luma[k] {
        NotBelowRank(a, k - 1, j);
      }
    }
  }

  /** b * (DITHERSTEPS - 1) / distance */
  function Step(b: int, distance: int): (r: nat)
    requires 0 <= b <= distance && 0 < distance
    ensures r < 8 && (b == 0 ==> r == 0)
  {
    assert b * 7 <= 7 * distance;
    b * 7 / distance
  }

  /** The gray gradient of the encoder, black, three grays and white. */
  lemma GradientIsValid()
    ensures Palette([0, 68, 108, 149, 255], true).Valid() && Palette([0, 68, 108, 149], false).Valid()
  {
  }

  // The tables

  ghost predicate TablesOk(c: Palette, index1: seq<int>, index2: seq<int>, dither: seq<int>)
    requires c.Valid()
  {
    && |index1| == |index2| == |dither| == 256
    && forall a :: 0 <= a < 256 ==> TablesAt(c, index1, index2, dither, a)
  }

  ghost predicate TablesAt(c: Palette, index1: seq<int>, index2: seq<int>, dither: seq<int>, a: nat)
    requires c.Valid() && a < |index1| && a < |index2| && a < |dither|
  {
    && index1[a] == c.Rank(a) && dither[a] == c.Dither(a)
    && index2[a] == if c.Rank(a) + 1 < |c.luma| then c.Rank(a) + 1 else c.Rank(a)
  }

  /** The dithering table after a segment was filled. */
  function Filled(c: Palette, i: nat, x: int, before: int): int
    requires i + 1 < |c.luma| && c.luma[i] < c.luma[i + 1]
  {
    if c.luma[i] <= x <= c.luma[i + 1] then Step(x - c.luma[i], c.luma[i + 1] - c.luma[i]) else before
  }

  /** One segment of the dithering table, both ends included. */
  method FillSegment(c: Palette, i: nat, dither: array<int>)
    requires c.Valid() && i + 1 < |c.luma| && dither.Length == 256
    modifies dither
    ensures forall x :: 0 <= x < 256 ==> dither[x] == Filled(c, i, x, old(dither[x]))
  {
    assert c.luma[0] <= c.luma[i] < c.luma[i + 1] <= c.luma[|c.luma| - 1];
    var distance := c.luma[i + 1] - c.luma[i];
    for b := 0 to distance + 1
      invariant forall x :: 0 <= x < 256 ==>
        dither[x] == if x < c.luma[i] + b then Filled(c, i, x, old(dither[x])) else old(dither[x])
    {
      dither[c.luma[i] + b] := Step(b, distance);
    }
  }

  /** The tables are right below a, the dithering table only below the colour reached. */
  ghost predicate BuiltTo(c: Palette, index1: seq<int>, index2: seq<int>, dither: seq<int>, a: nat, i: nat)
    requires c.Valid()
  {
    && |index1| == |index2| == |dither| == 256 && a <= 256 && i < |c.luma| && (i == 0 || c.luma[i] <= a)
    && (forall x :: 0 <= x < a ==> index1[x] == c.Rank(x) && index2[x] == Above(c, c.Rank(x)))
    && (forall x :: 0 <= x < a && (x < c.luma[i] || i == |c.luma| - 1) ==> dither[x] == c.Dither(x))
    && (forall x :: 0 <= x < c.luma[0] && x < 256 ==> dither[x] == 0)
  }

  /** The colour after the i-th, or the last one. */
  function Above(c: Palette, i: nat): int {
    if i + 1 < |c.luma| - 1 then i + 1 else |c.luma| - 1
  }

  method BuildTables(c: Palette) returns (index1: array<int>, index2: array<int>, dither: array<int>)
    requires c.Valid()
    ensures fresh(index1) && fresh(index2) && fresh(dither) && TablesOk(c, index1[..], index2[..], dither[..])
  {
    index1, index2, dither := new int[256](_ => 0), new int[256](_ => 0), new int[256](_ => 0);
    var i := 0;
    for a := 0 to 256
      invariant 0 <= i < |c.luma| && (i + 1 < |c.luma| ==> a <= c.luma[i + 1])
      invariant BuiltTo(c, index1[..], index2[..], dither[..], a, i)
    {
      if i < |c.luma| - 1 && a == c.luma[i + 1] {
        ghost var before := dither[..];
        FillSegment(c, i, dither);
        SegmentRight(c, index1[..], index2[..], i, before, dither[..]);
        i := i + 1;
        assert i + 1 < |c.luma| ==> c.luma[i] < c.luma[i + 1];
      }
      SetEntry(c, a, i, index1, index2, dither);
    }
  }

  method SetEntry(c: Palette, a: nat, i: nat, index1: array<int>, index2: array<int>, dither: array<int>)
    requires c.Valid() && a < 256 && BuiltTo(c, index1[..], index2[..], dither[..], a, i)
    requires (i + 1 < |c.luma| ==> a < c.luma[i + 1])
    requires index1 != index2 && index1 != dither && index2 != dither
    modifies index1, index2, dither
    ensures BuiltTo(c, index1[..], index2[..], dither[..], a + 1, i)
  {
    EntryRight(c, index1[..], index2[..], dither[..], a, i);
    ghost var s1, s2 := index1[..][a := i], index2[..][a := Above(c, i)];
    ghost var d := if i == |c.luma| - 1 then dither[..][a := 0] else dither[..];
    if i >= |c.luma| - 1 {
      dither[a] := 0;
    }
    index1[a] := i;
    index2[a] := if i + 1 < |c.luma| - 1 then i + 1 else |c.luma| - 1;
    assert index1[..] == s1 && index2[..] == s2 && dither[..] == d;
  }

  lemma SegmentRight(c: Palette, index1: seq<int>, index2: seq<int>, i: nat, before: seq<int>, after: seq<int>)
    requires c.Valid() && i + 1 < |c.luma| && |before| == |after| == 256 && c.luma[i + 1] <= 255
    requires BuiltTo(c, index1, index2, before, c.luma[i + 1], i)
    requires forall x :: 0 <= x < 256 ==> after[x] == Filled(c, i, x, before[x])
    ensures BuiltTo(c, index1, index2, after, c.luma[i + 1], i + 1)
  {
    assert forall j :: 0 < j < |c.luma| ==> c.luma[0] < c.luma[j] <= 255;
    forall x | 0 <= x < c.luma[i + 1]
      ensures after[x] == c.Dither(x)
    {
      if c.luma[i] <= x {
        c.RankToUnique(x, |c.luma| - 1, i);
      }
    }
  }

  lemma EntryRight(c: Palette, index1: seq<int>, index2: seq<int>, dither: seq<int>, a: nat, i: nat)
    requires c.Valid() && a < 256 && BuiltTo(c, index1, index2, dither, a, i)
    requires (i + 1 < |c.luma| ==> a < c.luma[i + 1])
    ensures BuiltTo(c, index1[a := i], index2[a := Above(c, i)],
      if i == |c.luma| - 1 then dither[a := 0] else dither, a + 1, i)
  {
    var d := if i == |c.luma| - 1 then dither[a := 0] else dither;
    RankHere(c, a, i);
    forall x | 0 <= x < a + 1 && (x < c.luma[i] || i == |c.luma| - 1)
      ensures d[x] == c.Dither(x)
    {
      if x == a && i == |c.luma| - 1 {
        DitherAtTop(c, a);
      }
    }
  }

  lemma RankHere(c: Palette, a: nat, i: nat)
    requires c.Valid() && i < |c.luma| && (i == 0 || c.luma[i] <= a) && (i + 1 < |c.luma| ==> a < c.luma[i + 1])
    ensures c.Rank(a) == i
    ensures 0 < i ==> c.luma[0] < c.luma[i]
  {
    c.RankToUnique(a, |c.luma| - 1, i);
  }

  lemma DitherAtTop(c: Palette, a: int)
    requires c.Valid() && c.Rank(a) == |c.luma| - 1
    ensures c.Dither(a) == 0
  {
  }

  // Rendering a character, as functions of its pixels

  /** interlaced_dither_patterns: for every dithering step, eight rows of four. */
  type Patterns = p: seq<seq<seq<bool>>> | PatternsOk(p) witness seq(9, _ => seq(8, _ => [false, false, false, false]))

  predicate PatternsOk(p: seq<seq<seq<bool>>>) {
    |p| == 9 && forall i :: 0 <= i < 9 ==> |p[i]| == 8 && forall j :: 0 <= j < 8 ==> |p[i][j]| == 4
  }

  predicate BlockOk(block: seq<int>) {
    |block| == 32 && forall i :: 0 <= i < 32 ==> 0 <= block[i] <= 255
  }

  function High(c: Palette, pix: int): int
    requires c.Valid()
  {
    if c.Rank(pix) >= 3 then pix - c.luma[3] else 0
  }

  function Low(c: Palette, pix: int): int
    requires c.Valid()
  {
    if c.Rank(pix) < 1 then c.luma[1] - pix else 0
  }

  /** How much the first n pixels are above the fourth colour, and below the second. */
  function HighTo(c: Palette, block: seq<int>, n: nat): (r: int)
    requires c.Valid() && n <= |block|
  {
    if n == 0 then 0 else HighTo(c, block, n - 1) + High(c, block[n - 1])
  }

  function LowTo(c: Palette, block: seq<int>, n: nat): (r: int)
    requires c.Valid() && n <= |block|
  {
    if n == 0 then 0 else LowTo(c, block, n - 1) + Low(c, block[n - 1])
  }

  lemma {:induction false} HighPositive(c: Palette, block: seq<int>, n: nat)
    requires c.Valid() && n <= |block|
    ensures 0 <= HighTo(c, block, n)
    ensures 0 < HighTo(c, block, n) <==> exists i :: 0 <= i < n && c.luma[3] < block[i]
  {
    if n == 0 {
    } else {
      HighPositive(c, block, n - 1);
      var pix := block[n - 1];
      if c.Rank(pix) < 3 {
        c.NotBelowRank(pix, |c.luma| - 1, 3);
      }
      assert c.Rank(pix) > 3 ==> c.luma[3] < c.luma[c.Rank(pix)];
    }
  }

  lemma {:induction false} LowPositive(c: Palette, block: seq<int>, n: nat)
    requires c.Valid() && n <= |block|
    ensures 0 <= LowTo(c, block, n)
    ensures 0 < LowTo(c, block, n) <==> exists i :: 0 <= i < n && block[i] < c.luma[1]
  {
    if n == 0 {
    } else {
      LowPositive(c, block, n - 1);
      var pix := block[n - 1];
      c.RankToNext(pix);
      assert c.Rank(pix) > 1 ==> c.luma[1] < c.luma[c.Rank(pix)];
    }
  }

  /** Does the character need both the brightest and the darkest colour, when only one of them is at hand? */
  predicate Conflict(c: Palette, block: seq<int>)
    requires c.Valid() && |block| == 32
  {
    HighTo(c, block, 32) > 0 && LowTo(c, block, 32) > 0 && c.use5col
  }

  /** The pixels cut off at the end that costs less. */
  function Clamped(c: Palette, block: seq<int>): (r: seq<int>)
    requires c.Valid() && |block| == 32
    ensures |r| == 32
  {
    if LowTo(c, block, 32) > HighTo(c, block, 32) then
      seq(32, i requires 0 <= i < 32 => if c.luma[3] < block[i] then c.luma[3] else block[i])
    else
      seq(32, i requires 0 <= i < 32 => if block[i] < c.luma[1] then c.luma[1] else block[i])
  }

  /** The pixels a character ends with. */
  function Settled(c: Palette, block: seq<int>): (r: seq<int>)
    requires c.Valid() && |block| == 32
    ensures |r| == 32
  {
    if Conflict(c, block) then Clamped(c, block) else block
  }

  /** One clamp is enough: no character is rendered more than twice, and none ends in conflict. */
  lemma SettledHasNoConflict(c: Palette, block: seq<int>)
    requires c.Valid() && BlockOk(block)
    ensures !Conflict(c, Settled(c, block)) && BlockOk(Settled(c, block))
    ensures Settled(c, Settled(c, block)) == Settled(c, block)
  {
    HighPositive(c, Settled(c, block), 32);
    LowPositive(c, Settled(c, block), 32);
    assert forall j :: 0 < j < |c.luma| ==> c.luma[0] < c.luma[j] <= 255;
  }

  /** In five colours a finished character has no pixel below the second colour or none above the fourth; and it was
      left alone if and only if that was so from the start. */
  lemma SettledUsesFourColours(c: Palette, block: seq<int>)
    requires c.Valid() && BlockOk(block) && c.use5col
    ensures
      || (forall i :: 0 <= i < 32 ==> Settled(c, block)[i] <= c.luma[3])
      || (forall i :: 0 <= i < 32 ==> c.luma[1] <= Settled(c, block)[i])
    ensures Settled(c, block) == block <==>
      (forall i :: 0 <= i < 32 ==> block[i] <= c.luma[3]) || (forall i :: 0 <= i < 32 ==> c.luma[1] <= block[i])
  {
    HighPositive(c, block, 32);
    LowPositive(c, block, 32);
    if Conflict(c, block) {
      var i :| 0 <= i < 32 && c.luma[3] < block[i];
      var j :| 0 <= j < 32 && block[j] < c.luma[1];
      assert Settled(c, block)[i] != block[i] || Settled(c, block)[j] != block[j];
    }
  }

  /** The two bits of a pixel in one of its two rows. */
  function Pair(c: Palette, patterns: Patterns, pix: int, x: nat, y: nat, half: nat): (r: nat)
    requires c.Valid() && half < 2
    ensures r < 4
  {
    var i := if patterns[c.Dither(pix)][y % 4 * 2 + half][x % 4] then Above(c, c.Rank(pix)) else c.Rank(pix);
    3 - i % 4
  }

  /** The first x pixels of row y of a character, as a number with the leftmost pixel in front. */
  function RowTo(c: Palette, patterns: Patterns, block: seq<int>, y: nat, half: nat, x: nat): (r: nat)
    requires c.Valid() && |block| == 32 && y < 8 && half < 2 && x <= 4
    ensures r < (if x == 0 then 1 else if x == 1 then 4 else if x == 2 then 16 else if x == 3 then 64 else 256)
  {
    if x == 0 then 0
    else 4 * RowTo(c, patterns, block, y, half, x - 1) + Pair(c, patterns, block[y * 4 + x - 1], x - 1, y, half)
  }

  // What is shown, by the brightness of the pixel

  /** Colour i is the brightest that is not brighter than a, or the darkest one if all are. */
  ghost predicate Reaches(c: Palette, a: int, i: nat) {
    i < |c.luma| && (i == 0 || c.luma[i] <= a) && (i + 1 < |c.luma| ==> a < c.luma[i + 1])
  }

  /** The dithering step is the number of whole sevenths of the way from the pixel's colour to the next one, and 0 below
      the darkest colour and from the brightest one on. */
  lemma DitherIs(c: Palette, a: int, i: nat)
    requires c.Valid() && Reaches(c, a, i)
    ensures a < c.luma[0] || i + 1 == |c.luma| ==> c.Dither(a) == 0
    ensures c.luma[0] <= a && i + 1 < |c.luma| ==>
      var way, distance := a - c.luma[i], c.luma[i + 1] - c.luma[i];
      c.Dither(a) * distance <= 7 * way < c.Dither(a) * distance + distance
  {
    c.RankToUnique(a, |c.luma| - 1, i);
    if c.luma[0] <= a && i + 1 < |c.luma| {
      StepIs(a - c.luma[i], c.luma[i + 1] - c.luma[i]);
    }
  }

  lemma StepIs(b: int, distance: int)
    requires 0 <= b <= distance && 0 < distance
    ensures Step(b, distance) * distance <= 7 * b < Step(b, distance) * distance + distance
  {
    assert b * 7 == (b * 7 / distance) * distance + b * 7 % distance;
  }

  /** A pixel is shown in its colour, counted down from 3 with the fifth colour as the first, where its pattern is
      clear; only where the pattern is set, in the next one, if there is one. */
  lemma PixelShown(c: Palette, patterns: Patterns, pix: int, x: nat, y: nat, half: nat, i: nat, r: nat)
    requires c.Valid() && x < 4 && half < 2 && Reaches(c, pix, i)
    requires r < 8 && r % 2 == half && r / 2 == y % 4
    ensures !patterns[c.Dither(pix)][r][x] ==> Pair(c, patterns, pix, x, y, half) == if i == 4 then 3 else 3 - i
    ensures patterns[c.Dither(pix)][r][x] ==>
      var j := if i + 1 < |c.luma| then i + 1 else i;
      Pair(c, patterns, pix, x, y, half) == if j == 4 then 3 else 3 - j
  {
    c.RankToUnique(pix, |c.luma| - 1, i);
    assert y % 4 * 2 + half == r && x % 4 == x;
    var shown := if patterns[c.Dither(pix)][r][x] then Above(c, i) else i;
    assert Pair(c, patterns, pix, x, y, half) == 3 - shown % 4;
  }

  /** The four pixels of a row, the leftmost one in the two highest bits. */
  lemma RowIs(c: Palette, patterns: Patterns, block: seq<int>, y: nat, half: nat, first: nat)
    requires c.Valid() && |block| == 32 && y < 8 && half < 2 && first == 4 * y
    ensures RowTo(c, patterns, block, y, half, 4)
         == 64 * Pair(c, patterns, block[first], 0, y, half) + 16 * Pair(c, patterns, block[first + 1], 1, y, half)
          + 4 * Pair(c, patterns, block[first + 2], 2, y, half) + Pair(c, patterns, block[first + 3], 3, y, half)
  {
    RowStep(c, patterns, block, y, half, 0, 1, first);
    RowStep(c, patterns, block, y, half, 1, 2, first + 1);
    RowStep(c, patterns, block, y, half, 2, 3, first + 2);
    RowStep(c, patterns, block, y, half, 3, 4, first + 3);
  }

  lemma RowStep(c: Palette, patterns: Patterns, block: seq<int>, y: nat, half: nat, x: nat, next: nat, at: nat)
    requires c.Valid() && |block| == 32 && y < 8 && half < 2 && x < 4 && next == x + 1 && at == y * 4 + x
    ensures RowTo(c, patterns, block, y, half, next)
         == 4 * RowTo(c, patterns, block, y, half, x) + Pair(c, patterns, block[at], x, y, half)
  {
  }

  // Which end is cut off

  /** How much n pixels differ from one another in all. */
  function Distance(s: seq<int>, t: seq<int>, n: nat): (r: nat)
    requires n <= |s| && n <= |t|
  {
    if n == 0 then 0
    else Distance(s, t, n - 1) + if s[n - 1] < t[n - 1] then t[n - 1] - s[n - 1] else s[n - 1] - t[n - 1]
  }

  /** The two sums are what it costs to come down to the fourth colour, and up to the second; no other pixels that
      stay on their side cost less. */
  lemma {:induction false} CutCosts(c: Palette, block: seq<int>, t: seq<int>, n: nat)
    requires c.Valid() && n <= |block| && n <= |t|
    ensures (forall i :: 0 <= i < n ==> t[i] <= c.luma[3]) ==> HighTo(c, block, n) <= Distance(block, t, n)
    ensures (forall i :: 0 <= i < n ==> c.luma[1] <= t[i]) ==> LowTo(c, block, n) <= Distance(block, t, n)
    ensures (forall i :: 0 <= i < n ==> t[i] == if c.luma[3] < block[i] then c.luma[3] else block[i]) ==>
      HighTo(c, block, n) == Distance(block, t, n)
    ensures (forall i :: 0 <= i < n ==> t[i] == if block[i] < c.luma[1] then c.luma[1] else block[i]) ==>
      LowTo(c, block, n) == Distance(block, t, n)
  {
    if n == 0 {
    } else {
      CutCosts(c, block, t, n - 1);
      HighIs(c, block[n - 1]);
    }
  }

  /** How far a pixel is above the fourth colour, and below the second. */
  lemma HighIs(c: Palette, pix: int)
    requires c.Valid()
    ensures High(c, pix) == if c.luma[3] < pix then pix - c.luma[3] else 0
    ensures Low(c, pix) == if pix < c.luma[1] then c.luma[1] - pix else 0
  {
    c.RankToNext(pix);
    if c.Rank(pix) < 3 {
      c.NotBelowRank(pix, |c.luma| - 1, 3);
    }
    assert c.Rank(pix) > 3 ==> c.luma[3] < c.luma[c.Rank(pix)];
    assert c.Rank(pix) > 1 ==> c.luma[1] < c.luma[c.Rank(pix)];
  }

  /** A character is settled at the least cost: no block of pixels that does without one of the two ends is nearer to it
      than the one it ends with; and if both ends cost the same, it is the dark one that goes. */
  lemma SettledIsNearest(c: Palette, block: seq<int>, t: seq<int>)
    requires c.Valid() && BlockOk(block) && |t| == 32
    requires (forall i :: 0 <= i < 32 ==> t[i] <= c.luma[3]) || (forall i :: 0 <= i < 32 ==> c.luma[1] <= t[i])
    ensures Conflict(c, block) ==> Distance(block, Settled(c, block), 32) <= Distance(block, t, 32)
    ensures Conflict(c, block) && HighTo(c, block, 32) == LowTo(c, block, 32) ==>
      forall i :: 0 <= i < 32 ==> c.luma[1] <= Settled(c, block)[i]
  {
    CutCosts(c, block, t, 32);
    CutCosts(c, block, Settled(c, block), 32);
  }

  // The code

  /** Renders a character into rows of the charset, and measures it. */
  method RenderChar(c: Palette, patterns: Patterns, index1: array<int>, index2: array<int>, dither: array<int>,
                    best_cb: array<int>, cb: nat, charset: array<Byte>, cs: nat, ghost block: seq<int>)
    returns (lowdiff: int, highdiff: int)
    requires c.Valid() && index1.Length == index2.Length == dither.Length == 256
    requires TablesOk(c, index1[..], index2[..], dither[..])
    requires cb + 32 <= best_cb.Length && block == best_cb[cb..cb + 32] && BlockOk(block)
    requires cs + 8 <= 0x800 && charset.Length == 0x1000
    modifies charset
    ensures lowdiff == LowTo(c, block, 32) && highdiff == HighTo(c, block, 32)
    ensures RowsAt(charset[..], old(charset[..]), cs, Rows(c, patterns, block, 0), Rows(c, patterns, block, 1), 8)
  {
    lowdiff, highdiff := 0, 0;
    ghost var rows1, rows2 := Rows(c, patterns, block, 0), Rows(c, patterns, block, 1);
    ghost var before := charset[..];
    for y := 0 to 8
      invariant lowdiff == LowTo(c, block, 4 * y) && highdiff == HighTo(c, block, 4 * y)
      invariant RowsAt(charset[..], before, cs, rows1, rows2, y)
    {
      var row1, row2;
      lowdiff, highdiff, row1, row2 := RenderRow(c, patterns, index1, index2, dither, best_cb, cb, y, lowdiff, highdiff,
        block);
      PutRows(charset, cs, y, row1, row2, before, rows1, rows2);
    }
  }

  /** The first rows of the character at cs have been written to both halves of the charset, and nothing else. */
  ghost predicate RowsAt(charset: seq<Byte>, before: seq<Byte>, cs: nat, rows1: seq<Byte>, rows2: seq<Byte>, n: nat)
    requires |charset| == |before| == 0x1000 && cs + 8 <= 0x800 && |rows1| == |rows2| == 8 && n <= 8
  {
    forall i :: 0 <= i < 0x1000 ==> charset[i] == RowsOf(before[i], cs, rows1, rows2, n, i)
  }

  function RowsOf(before: Byte, cs: nat, rows1: seq<Byte>, rows2: seq<Byte>, n: nat, i: int): Byte
    requires |rows1| == |rows2| == 8 && n <= 8
  {
    if cs <= i < cs + n then rows1[i - cs]
    else if cs + 0x800 <= i < cs + 0x800 + n then rows2[i - cs - 0x800]
    else before
  }

  method PutRows(charset: array<Byte>, cs: nat, y: nat, row1: Byte, row2: Byte, ghost before: seq<Byte>,
                 ghost rows1: seq<Byte>, ghost rows2: seq<Byte>)
    requires charset.Length == |before| == 0x1000 && cs + 8 <= 0x800 && |rows1| == |rows2| == 8 && y < 8
    requires RowsAt(charset[..], before, cs, rows1, rows2, y) && row1 == rows1[y] && row2 == rows2[y]
    modifies charset
    ensures RowsAt(charset[..], before, cs, rows1, rows2, y + 1)
  {
    charset[cs + y + 0x000] := row1;
    charset[cs + y + 0x800] := row2;
  }

  method RenderRow(c: Palette, patterns: Patterns, index1: array<int>, index2: array<int>, dither: array<int>,
                   best_cb: array<int>, cb: nat, y: nat, low: int, high: int, ghost block: seq<int>)
    returns (lowdiff: int, highdiff: int, row1: Byte, row2: Byte)
    requires c.Valid() && index1.Length == index2.Length == dither.Length == 256
    requires TablesOk(c, index1[..], index2[..], dither[..])
    requires cb + 32 <= best_cb.Length && block == best_cb[cb..cb + 32] && BlockOk(block) && y < 8
    requires low == LowTo(c, block, y * 4) && high == HighTo(c, block, y * 4)
    ensures InRow(c, patterns, block, y, 4, lowdiff, highdiff, row1, row2)
  {
    lowdiff, highdiff, row1, row2 := low, high, 0, 0;
    for x := 0 to 4
      invariant InRow(c, patterns, block, y, x, lowdiff, highdiff, row1, row2)
    {
      lowdiff, highdiff, row1, row2 := RenderNextPixel(c, patterns, index1, index2, dither, best_cb[cb + (y * 4 + x)],
        x, y, lowdiff, highdiff, row1, row2, block);
    }
  }

  /** One more pixel of a row. */
  method RenderNextPixel(c: Palette, patterns: Patterns, index1: array<int>, index2: array<int>, dither: array<int>,
                    pix: int, x: nat, y: nat, low: int, high: int, r1: int, r2: int, ghost block: seq<int>)
    returns (lowdiff: int, highdiff: int, row1: Byte, row2: Byte)
    requires c.Valid() && index1.Length == index2.Length == dither.Length == 256
    requires TablesOk(c, index1[..], index2[..], dither[..])
    requires BlockOk(block) && y < 8 && x < 4 && pix == block[y * 4 + x]
    requires InRow(c, patterns, block, y, x, low, high, r1, r2)
    ensures InRow(c, patterns, block, y, x + 1, lowdiff, highdiff, row1, row2)
  {
    var pair1, pair2;
    lowdiff, highdiff, pair1, pair2 := RenderPixel(c, patterns, index1, index2, dither, pix, x, y, low, high);
    RowGrows(c, patterns, block, y, x, low, high, r1, r2);
    row1, row2 := 4 * r1 + pair1, 4 * r2 + pair2;
  }

  /** The first x pixels of row y are accounted for. */
  ghost predicate InRow(c: Palette, patterns: Patterns, block: seq<int>, y: nat, x: nat, low: int, high: int, row1: int,
                        row2: int)
    requires c.Valid() && |block| == 32 && y < 8 && x <= 4
  {
    && low == LowTo(c, block, y * 4 + x) && high == HighTo(c, block, y * 4 + x)
    && row1 == RowTo(c, patterns, block, y, 0, x) && row2 == RowTo(c, patterns, block, y, 1, x)
  }

  method RenderPixel(c: Palette, patterns: Patterns, index1: array<int>, index2: array<int>, dither: array<int>,
                     pix: int, x: nat, y: nat, low: int, high: int)
    returns (lowdiff: int, highdiff: int, pair1: nat, pair2: nat)
    requires c.Valid() && index1.Length == index2.Length == dither.Length == 256
    requires TablesOk(c, index1[..], index2[..], dither[..])
    requires 0 <= pix <= 255
    ensures lowdiff == low + Low(c, pix) && highdiff == high + High(c, pix)
    ensures pair1 == Pair(c, patterns, pix, x, y, 0) && pair2 == Pair(c, patterns, pix, x, y, 1)
  {
    assert TablesAt(c, index1[..], index2[..], dither[..], pix);
    lowdiff, highdiff := low, high;
    if index1[pix] >= 3 {
      highdiff := highdiff + pix - c.luma[3];
    }
    if index1[pix] < 1 {
      lowdiff := lowdiff + c.luma[1] - pix;
    }
    var p := patterns[dither[pix]];
    pair1 := if p[y % 4 * 2 + 0][x % 4] then 3 - index2[pix] % 4 else 3 - index1[pix] % 4;
    pair2 := if p[y % 4 * 2 + 1][x % 4] then 3 - index2[pix] % 4 else 3 - index1[pix] % 4;
  }

  lemma RowGrows(c: Palette, patterns: Patterns, block: seq<int>, y: nat, x: nat, low: int, high: int, row1: int,
                 row2: int)
    requires c.Valid() && |block| == 32 && y < 8 && x < 4 && InRow(c, patterns, block, y, x, low, high, row1, row2)
    ensures var pix := block[y * 4 + x]; InRow(c, patterns, block, y, x + 1, low + Low(c, pix), high + High(c, pix),
      4 * row1 + Pair(c, patterns, pix, x, y, 0), 4 * row2 + Pair(c, patterns, pix, x, y, 1))
  {
  }

  /** Cuts the pixels of a character off at one end. */
  method Clamp(c: Palette, best_cb: array<int>, cb: nat, lowdiff: int, highdiff: int)
    requires c.Valid() && cb + 32 <= best_cb.Length
    requires lowdiff == LowTo(c, best_cb[cb..cb + 32], 32) && highdiff == HighTo(c, best_cb[cb..cb + 32], 32)
    modifies best_cb
    ensures best_cb[cb..cb + 32] == Clamped(c, old(best_cb[cb..cb + 32]))
    ensures best_cb[..cb] == old(best_cb[..cb]) && best_cb[cb + 32..] == old(best_cb[cb + 32..])
  {
    ghost var block := best_cb[cb..cb + 32];
    ghost var clamped := Clamped(c, block);
    if lowdiff > highdiff {
      for x := 0 to 32
        invariant best_cb[..cb] == old(best_cb[..cb]) && best_cb[cb + 32..] == old(best_cb[cb + 32..])
        invariant forall k :: cb <= k < cb + 32 ==> best_cb[k] == if k < cb + x then clamped[k - cb] else block[k - cb]
      {
        best_cb[cb + x] := if c.luma[3] < best_cb[cb + x] then c.luma[3] else best_cb[cb + x];
      }
    } else {
      for x := 0 to 32
        invariant best_cb[..cb] == old(best_cb[..cb]) && best_cb[cb + 32..] == old(best_cb[cb + 32..])
        invariant forall k :: cb <= k < cb + 32 ==> best_cb[k] == if k < cb + x then clamped[k - cb] else block[k - cb]
      {
        best_cb[cb + x] := if best_cb[cb + x] < c.luma[1] then c.luma[1] else best_cb[cb + x];
      }
    }
    assert best_cb[cb..cb + 32] == clamped;
  }

  /** Character i is finished: its pixels are settled, and the charset and the colour map show them. */
  ghost predicate CharDone(c: Palette, patterns: Patterns, blocks: seq<int>, best_cb: seq<int>, charset: seq<Byte>,
                           colrammap: seq<int>, i: nat)
    requires c.Valid() && |blocks| == |best_cb| == 8192 && |charset| == 0x1000 && |colrammap| == 256 && i < 256
  {
    var block := Settled(c, Block(blocks, i));
    && Block(best_cb, i) == block
    && charset[8 * i..8 * i + 8] == Rows(c, patterns, block, 0)
    && charset[0x800 + 8 * i..0x800 + 8 * i + 8] == Rows(c, patterns, block, 1)
    && colrammap[i] == if HighTo(c, block, 32) > 0 then 1 else 0
  }

  /** The pixels of character i. */
  function Block(s: seq<int>, i: nat): (r: seq<int>)
    requires |s| == 8192 && i < 256
    ensures |r| == 32
  {
    s[32 * i..32 * i + 32]
  }

  /** The eight rows of a character in one half of the charset. */
  ghost function Rows(c: Palette, patterns: Patterns, block: seq<int>, half: nat): (r: seq<Byte>)
    requires c.Valid() && |block| == 32 && half < 2
    ensures |r| == 8 && forall y :: 0 <= y < 8 ==> r[y] == RowTo(c, patterns, block, y, half, 4)
  {
    seq(8, y requires 0 <= y < 8 => RowTo(c, patterns, block, y, half, 4))
  }

  /** The characters before the i-th are finished; it is as it was given, or settled; the later ones are as given. */
  ghost predicate Progress(c: Palette, patterns: Patterns, blocks: seq<int>, best_cb: seq<int>, charset: seq<Byte>,
                           colrammap: seq<int>, i: nat)
    requires c.Valid() && |blocks| == |best_cb| == 8192 && |charset| == 0x1000 && |colrammap| == 256 && i <= 256
  {
    && (forall k :: 0 <= k < i ==> CharDone(c, patterns, blocks, best_cb, charset, colrammap, k))
    && (i < 256 ==> Block(best_cb, i) == Block(blocks, i) || Block(best_cb, i) == Settled(c, Block(blocks, i)))
    && forall k :: i < k < 256 ==> Block(best_cb, k) == Block(blocks, k)
  }

  /** How many of the first n characters are in conflict as given. */
  ghost function Conflicts(c: Palette, blocks: seq<int>, n: nat): (r: nat)
    requires c.Valid() && |blocks| == 8192 && n <= 256
    ensures r <= n
  {
    if n == 0 then 0 else Conflicts(c, blocks, n - 1) + (if Conflict(c, Block(blocks, n - 1)) then 1 else 0)
  }

  /** Is the character being rendered for the second time? */
  ghost function Again(c: Palette, blocks: seq<int>, best_cb: seq<int>, i: nat): nat
    requires c.Valid() && |blocks| == |best_cb| == 8192 && i <= 256
  {
    if i < 256 && Conflict(c, Block(blocks, i)) && !Conflict(c, Block(best_cb, i)) then 1 else 0
  }

  /** A character without conflict is finished by what was rendered. */
  lemma CharFinished(c: Palette, patterns: Patterns, blocks: seq<int>, best_cb: seq<int>, charset: seq<Byte>,
                     after: seq<Byte>,
                     colrammap: seq<int>, i: nat)
    requires c.Valid() && |blocks| == |best_cb| == 8192 && |charset| == |after| == 0x1000 && |colrammap| == 256
    requires i < 256
    requires Progress(c, patterns, blocks, best_cb, charset, colrammap, i) && !Conflict(c, Block(best_cb, i))
    requires BlockOk(Block(blocks, i))
    requires RowsAt(after, charset, 8 * i, Rows(c, patterns, Block(best_cb, i), 0),
      Rows(c, patterns, Block(best_cb, i), 1), 8)
    ensures Progress(c, patterns, blocks, best_cb, after,
      colrammap[i := if HighTo(c, Block(best_cb, i), 32) > 0 then 1 else 0], i + 1)
    ensures Conflicts(c, blocks, i + 1) + Again(c, blocks, best_cb, i + 1)
       == Conflicts(c, blocks, i) + Again(c, blocks, best_cb, i)
  {
    SettledHasNoConflict(c, Block(blocks, i));
    var rows1, rows2 := Rows(c, patterns, Block(best_cb, i), 0), Rows(c, patterns, Block(best_cb, i), 1);
    RowsRead(after, charset, i, rows1, rows2);
    var colours := colrammap[i := if HighTo(c, Block(best_cb, i), 32) > 0 then 1 else 0];
    assert CharDone(c, patterns, blocks, best_cb, after, colours, i);
    forall k | 0 <= k < i
      ensures CharDone(c, patterns, blocks, best_cb, after, colours, k)
    {
      RowsKept(after, charset, i, rows1, rows2, k);
      assert CharDone(c, patterns, blocks, best_cb, charset, colrammap, k);
    }
  }

  /** Rendering a character in conflict and clamping it leaves the finished ones, and it is settled now. */
  lemma CharClamped(c: Palette, patterns: Patterns, blocks: seq<int>, best_cb: seq<int>, clamped: seq<int>,
                    charset: seq<Byte>,
                    after: seq<Byte>, colrammap: seq<int>, i: nat)
    requires c.Valid() && |blocks| == |best_cb| == |clamped| == 8192 && |charset| == |after| == 0x1000
    requires |colrammap| == 256 && i < 256
    requires Progress(c, patterns, blocks, best_cb, charset, colrammap, i)
    requires BlockOk(Block(blocks, i)) && Conflict(c, Block(best_cb, i))
    requires RowsAt(after, charset, 8 * i, Rows(c, patterns, Block(best_cb, i), 0),
      Rows(c, patterns, Block(best_cb, i), 1), 8)
    requires Block(clamped, i) == Clamped(c, Block(best_cb, i))
    requires clamped[..32 * i] == best_cb[..32 * i] && clamped[32 * i + 32..] == best_cb[32 * i + 32..]
    ensures Progress(c, patterns, blocks, clamped, after, colrammap, i) && !Conflict(c, Block(clamped, i))
    ensures Again(c, blocks, clamped, i) == 1 && Again(c, blocks, best_cb, i) == 0
  {
    var rows1, rows2 := Rows(c, patterns, Block(best_cb, i), 0), Rows(c, patterns, Block(best_cb, i), 1);
    SettledHasNoConflict(c, Block(blocks, i));
    forall k | 0 <= k < 256 && k != i
      ensures Block(clamped, k) == Block(best_cb, k)
    {
      BlockKept(best_cb, clamped, i, k);
    }
    forall k | 0 <= k < i
      ensures CharDone(c, patterns, blocks, clamped, after, colrammap, k)
    {
      RowsKept(after, charset, i, rows1, rows2, k);
      assert CharDone(c, patterns, blocks, best_cb, charset, colrammap, k);
    }
  }

  lemma BlockKept(s: seq<int>, t: seq<int>, i: nat, k: nat)
    requires |s| == |t| == 8192 && i < 256 && k < 256 && k != i && t[..32 * i] == s[..32 * i]
    requires t[32 * i + 32..] == s[32 * i + 32..]
    ensures Block(t, k) == Block(s, k)
  {
    forall j | 32 * k <= j < 32 * k + 32
      ensures t[j] == s[j]
    {
      if k < i {
        assert t[..32 * i][j] == s[..32 * i][j];
      } else {
        assert t[32 * i + 32..][j - 32 * i - 32] == s[32 * i + 32..][j - 32 * i - 32];
      }
    }
  }

  lemma RowsRead(after: seq<Byte>, before: seq<Byte>, i: nat, rows1: seq<Byte>, rows2: seq<Byte>)
    requires |after| == |before| == 0x1000 && i < 256 && |rows1| == |rows2| == 8
    requires RowsAt(after, before, 8 * i, rows1, rows2, 8)
    ensures after[8 * i..8 * i + 8] == rows1 && after[0x800 + 8 * i..0x800 + 8 * i + 8] == rows2
  {
  }

  lemma RowsKept(after: seq<Byte>, before: seq<Byte>, i: nat, rows1: seq<Byte>, rows2: seq<Byte>, k: nat)
    requires |after| == |before| == 0x1000 && i < 256 && |rows1| == |rows2| == 8
    requires RowsAt(after, before, 8 * i, rows1, rows2, 8)
    requires k < i
    ensures after[8 * k..8 * k + 8] == before[8 * k..8 * k + 8]
    ensures after[0x800 + 8 * k..0x800 + 8 * k + 8] == before[0x800 + 8 * k..0x800 + 8 * k + 8]
  {
  }

  /** One round of the loop: true when the character was clamped and must be rendered again. */
  method RenderNext(c: Palette, patterns: Patterns, index1: array<int>, index2: array<int>, dither: array<int>,
                    best_cb: array<int>, cb: nat, charset: array<Byte>, cs: nat, colrammap: array<int>, i: nat,
                    ghost blocks: seq<int>)
    returns (again: bool)
    requires c.Valid() && index1.Length == index2.Length == dither.Length == 256
    requires TablesOk(c, index1[..], index2[..], dither[..])
    requires best_cb.Length == |blocks| == 8192 && charset.Length == 0x1000 && colrammap.Length == 256
    requires best_cb != colrammap
    requires i < 256 && cb == 32 * i && cs == 8 * i && BlockOk(Block(blocks, i))
    requires Progress(c, patterns, blocks, best_cb[..], charset[..], colrammap[..], i)
    modifies best_cb, charset, colrammap
    ensures again == old(Conflict(c, Block(best_cb[..], i)))
    ensures Progress(c, patterns, blocks, best_cb[..], charset[..], colrammap[..], if again then i else i + 1)
    ensures again ==> !Conflict(c, Block(best_cb[..], i))
    ensures again ==> Again(c, blocks, best_cb[..], i) == 1 && old(Again(c, blocks, best_cb[..], i)) == 0
    ensures !again ==>
      Conflicts(c, blocks, i + 1) + Again(c, blocks, best_cb[..], i + 1)
         == Conflicts(c, blocks, i) + old(Again(c, blocks, best_cb[..], i))
  {
    ghost var pixels, rows, colours := best_cb[..], charset[..], colrammap[..];
    ghost var block := Block(pixels, i);
    SettledHasNoConflict(c, Block(blocks, i));
    var lowdiff, highdiff := RenderChar(c, patterns, index1, index2, dither, best_cb, cb, charset, cs, block);
    again := highdiff > 0 && lowdiff > 0 && c.use5col;
    if again {
      Clamp(c, best_cb, cb, lowdiff, highdiff);
      CharClamped(c, patterns, blocks, pixels, best_cb[..], rows, charset[..], colours, i);
    } else {
      CharFinished(c, patterns, blocks, pixels, rows, charset[..], colours, i);
      colrammap[i] := if highdiff > 0 then 1 else 0;
      assert colrammap[..] == colours[i := if highdiff > 0 then 1 else 0];
    }
  }

  /** The same, counted. */
  method RenderOnce(c: Palette, patterns: Patterns, index1: array<int>, index2: array<int>, dither: array<int>,
                    best_cb: array<int>, cb: nat, charset: array<Byte>, cs: nat, colrammap: array<int>, i: nat,
                    ghost blocks: seq<int>,
                    ghost renderings: nat)
    returns (again: bool, ghost renderings': nat, ghost next: nat)
    requires c.Valid() && index1.Length == index2.Length == dither.Length == 256
    requires TablesOk(c, index1[..], index2[..], dither[..])
    requires best_cb.Length == |blocks| == 8192 && charset.Length == 0x1000 && colrammap.Length == 256
    requires best_cb != colrammap
    requires i < 256 && cb == 32 * i && cs == 8 * i && BlockOk(Block(blocks, i))
    requires Rendered(c, patterns, blocks, best_cb[..], charset[..], colrammap[..], i, renderings)
    modifies best_cb, charset, colrammap
    ensures again == old(Conflict(c, Block(best_cb[..], i)))
    ensures again ==> !Conflict(c, Block(best_cb[..], i))
    ensures next == (if again then i else i + 1)
    ensures Rendered(c, patterns, blocks, best_cb[..], charset[..], colrammap[..], next, renderings')
  {
    again := RenderNext(c, patterns, index1, index2, dither, best_cb, cb, charset, cs, colrammap, i, blocks);
    renderings', next := renderings + 1, if again then i else i + 1;
  }

  /** The renderings so far: one of every character before the i-th, one more of those in conflict as given, and one of
      the i-th if it has been clamped. */
  ghost predicate Rendered(c: Palette, patterns: Patterns, blocks: seq<int>, best_cb: seq<int>, charset: seq<Byte>,
                           colrammap: seq<int>,
      i: nat, renderings: nat)
    requires c.Valid() && |blocks| == |best_cb| == 8192 && |charset| == 0x1000 && |colrammap| == 256 && i <= 256
  {
    && Progress(c, patterns, blocks, best_cb, charset, colrammap, i)
    && renderings == i + Conflicts(c, blocks, i) + Again(c, blocks, best_cb, i)
  }

  method RenderAll(c: Palette, patterns: Patterns, index1: array<int>, index2: array<int>, dither: array<int>,
                   best_cb: array<int>, charset: array<Byte>, colrammap: array<int>)
    returns (ghost renderings: nat)
    requires c.Valid() && index1.Length == index2.Length == dither.Length == 256
    requires TablesOk(c, index1[..], index2[..], dither[..])
    requires best_cb.Length == 8192 && charset.Length == 0x1000 && colrammap.Length == 256 && best_cb != colrammap
    requires index1 != best_cb && index2 != best_cb && dither != best_cb
    requires index1 != colrammap && index2 != colrammap && dither != colrammap
    requires forall i :: 0 <= i < 256 ==> BlockOk(Block(best_cb[..], i))
    modifies best_cb, charset, colrammap
    ensures Progress(c, patterns, old(best_cb[..]), best_cb[..], charset[..], colrammap[..], 256)
    ensures renderings == 256 + Conflicts(c, old(best_cb[..]), 256)
  {
    renderings := 0;
    ghost var blocks := best_cb[..];
    var charpos, cb, cs := 0, 0, 0;
    while charpos < 256
      invariant 0 <= charpos <= 256 && cb == 32 * charpos && cs == 8 * charpos
      invariant TablesOk(c, index1[..], index2[..], dither[..])
      invariant Rendered(c, patterns, blocks, best_cb[..], charset[..], colrammap[..], charpos, renderings)
      decreases 256 - charpos, if charpos < 256 && Conflict(c, Block(best_cb[..], charpos)) then 1 else 0
    {
      var again;
      ghost var next;
      again, renderings, next := RenderOnce(c, patterns, index1, index2, dither, best_cb, cb, charset, cs, colrammap,
        charpos, blocks, renderings);
      if again {
        charpos := charpos - 1;
      } else {
        cb := cb + 32;
        cs := cs + 8;
      }
      charpos := charpos + 1;
      assert charpos == next;
    }
  }

  /** The whole charset. A character is rendered once more exactly when it is in conflict as given. */
  method RenderCharset(c: Palette, patterns: Patterns, best_cb: array<int>, charset: array<Byte>, colrammap: array<int>)
    returns (ghost renderings: nat)
    requires c.Valid() && best_cb.Length == 8192 && charset.Length == 0x1000 && colrammap.Length == 256
    requires best_cb != colrammap && forall i :: 0 <= i < 8192 ==> 0 <= best_cb[i] <= 255
    modifies best_cb, charset, colrammap
    ensures forall i :: 0 <= i < 256 ==>
      CharDone(c, patterns, old(best_cb[..]), best_cb[..], charset[..], colrammap[..], i)
    ensures renderings == 256 + Conflicts(c, old(best_cb[..]), 256) <= 512
  {
    var index1, index2, dither := BuildTables(c);
    renderings := RenderAll(c, patterns, index1, index2, dither, best_cb, charset, colrammap);
  }
}
