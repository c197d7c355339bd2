// The frame decoder of 8bps.c: run-length coded rows of separate colour planes, written into interleaved pixels.
module EightBps {
  import opened Bits

  /** What decode_init settles about a picture: how many planes the frame holds, how many of them are used, the
      distance of two pixels of a row, where in a pixel each plane goes, the size of the picture buffer, and how many
      pixels a row of it holds. */
  datatype Layout = Layout(coded: nat, planes: nat, px_inc: nat, planemap: seq<nat>, linesize: nat, height: nat,
                           room: nat)
  {
    predicate Valid() {
      && room * px_inc <= linesize < room * px_inc + px_inc
      && planes <= coded && planes <= |planemap| && 0 < px_inc && 0 < linesize
      && (forall p :: 0 <= p < planes ==> planemap[p] < px_inc)
      && (forall p, q :: 0 <= p < q < planes ==> planemap[p] != planemap[q])
    }

    /** Byte k of plane p in a row, counted from the start of the buffer. */
    function At(p: nat, row: nat, k: nat): int
      requires p < |planemap|
    {
      row * linesize + planemap[p] + k * px_inc
    }

    /** The bytes of plane p are those at its place within a pixel. */
    predicate Owns(p: nat, i: int)
      requires p < |planemap| && 0 < px_inc && 0 < linesize
    {
      i % linesize % px_inc == planemap[p]
    }

    /** The lengths of all rows of all planes come before the data. */
    function DataStart(): (r: nat) {
      2 * (coded * height)
    }

    predicate Fits(k: nat) {
      k <= room
    }
  }

  /** decode_init: none for a depth it does not support. */
  function LayoutFor(depth: nat, isRgb32: bool, bigEndian: bool, linesize: nat, height: nat): (r: seq<Layout>)
    requires 0 < linesize
    ensures r == [] <==> depth !in {8, 24, 32}
    ensures r != [] ==> |r| == 1 && r[0].Valid() && r[0].linesize == linesize && r[0].height == height
  {
    if depth == 8 then [Layout(1, 1, 1, [0], linesize, height, linesize)]
    else if depth == 24 then
      [Layout(3, 3, if isRgb32 then 4 else 3, [2, 1, 0], linesize, height, linesize / if isRgb32 then 4 else 3)]
    else if depth == 32 then
      [Layout(4, 3, 4, if bigEndian then [1, 2, 3, 0] else [2, 1, 0, 3], linesize, height, linesize / 4)]
    else []
  }

  lemma {:induction false} DivModUnique(q: int, r: int, d: int)
    requires 0 <= r < d
    ensures (q * d + r) / d == q && (q * d + r) % d == r
  {
    var x := q * d + r;
    assert x == (x / d) * d + x % d;
    SameQuotient(q, r, x / d, x % d, d);
  }

  lemma SameQuotient(q: int, r: int, q2: int, r2: int, d: int)
    requires 0 <= r < d && 0 <= r2 < d && q * d + r == q2 * d + r2
    ensures q == q2 && r == r2
  {
    if q < q2 {
      MulStep(q, q2, d);
    } else if q2 < q {
      MulStep(q2, q, d);
    }
  }

  lemma MulStep(a: int, b: int, d: int)
    requires a < b && 0 <= d
    ensures a * d + d <= b * d
  {
    assert b * d == (a + 1) * d + (b - a - 1) * d;
    assert (a + 1) * d == a * d + d;
    assert 0 <= (b - a - 1) * d;
  }

  /** Fitting, as the code tests it. */
  lemma FitsMeans(f: Layout, k: nat)
    requires f.Valid()
    ensures f.Fits(k) <==> k * f.px_inc <= f.linesize
  {
    if k < f.room {
      MulStep(k, f.room, f.px_inc);
    } else if f.room < k {
      MulStep(f.room, k, f.px_inc);
    }
  }

  /** A byte of plane p that fits lies in its row and belongs to the plane. */
  lemma AtIsOwned(f: Layout, p: nat, row: nat, k: nat)
    requires f.Valid() && p < f.planes && f.Fits(k + 1)
    ensures f.At(p, row, k) / f.linesize == row && f.Owns(p, f.At(p, row, k))
    ensures row < f.height ==> 0 <= f.At(p, row, k) < f.height * f.linesize
  {
    var offset := k * f.px_inc + f.planemap[p];
    OffsetInRow(k, f.px_inc, f.planemap[p], f.room, f.linesize);
    DivModUnique(row, offset, f.linesize);
    DivModUnique(k, f.planemap[p], f.px_inc);
    assert f.At(p, row, k) == row * f.linesize + offset;
    if row < f.height {
      RowInPicture(row, offset, f.linesize, f.height);
    }
  }

  lemma OffsetInRow(k: nat, px_inc: nat, place: nat, room: nat, linesize: nat)
    requires k < room && place < px_inc && room * px_inc <= linesize
    ensures 0 <= k * px_inc + place < linesize
  {
    assert (k + 1) * px_inc <= room * px_inc;
    assert (k + 1) * px_inc == k * px_inc + px_inc;
  }

  lemma RowInPicture(row: nat, offset: nat, linesize: nat, height: nat)
    requires row < height && offset < linesize
    ensures 0 <= row * linesize + offset < height * linesize
  {
    assert (row + 1) * linesize <= height * linesize;
    assert (row + 1) * linesize == row * linesize + linesize;
  }

  // Decoding a row, as a function of the input

  /** Whether the row was accepted, what is left of the input behind it, and its pixels. */
  datatype RowResult = RowResult(ok: bool, left: seq<Byte>, pixels: seq<Byte>)

  /** Subtraction of unsigned 32-bit numbers, which wraps around below 0. */
  function Less(a: nat, b: nat): (r: nat)
    ensures b <= a < 0x1_0000_0000 ==> r == a - b
    ensures a < b <= 0x1_0000_0000 ==> r == 0x1_0000_0000 - (b - a)
  {
    (a - b) % 0x1_0000_0000
  }

  datatype Step = Stop(result: RowResult) | Go(left: seq<Byte>, dlen: nat, pixels: seq<Byte>)

  /** What one control byte does, when dlen bytes of the row are left and the pixels so far are given. */
  function StepAt(f: Layout, data: seq<Byte>, dlen: nat, pixels: seq<Byte>): (r: Step)
    ensures r.Go? ==> |r.left| < |data|
    ensures r.Go? && f.Fits(|pixels|) ==> f.Fits(|r.pixels|)
    ensures r.Stop? ==> r.result.pixels == pixels
  {
    if dlen == 0 then Stop(RowResult(true, data, pixels))
    else if |data| <= 1 then Stop(RowResult(false, data, pixels))
    else if data[0] <= 127 then
      var count := data[0] + 1;
      if !f.Fits(|pixels| + count) then Stop(RowResult(true, data[1..], pixels))
      else if count > |data| - 1 then Stop(RowResult(false, data[1..], pixels))
      else Go(data[1 + count..], Less(dlen, count + 1), pixels + data[1..1 + count])
    else
      var count := 257 - data[0];
      if !f.Fits(|pixels| + count) then Stop(RowResult(true, data[1..], pixels))
      else Go(data[2..], Less(dlen, 2), pixels + Repeat(data[1], count))
  }

  /** What reading a row yields. */
  function Unpack(f: Layout, data: seq<Byte>, dlen: nat, pixels: seq<Byte>): (r: RowResult)
    decreases |data|
  {
    match StepAt(f, data, dlen, pixels)
    case Stop(result) => result
    case Go(left, dlen', pixels') => Unpack(f, left, dlen', pixels')
  }

  /** What a row comes to, written out: it ends well where its length is used up, or, with the control byte consumed,
      where its pixels run out of room; it ends badly where the bytes run out; and any other packet gives its pixels. */
  lemma UnpackIs(f: Layout, data: seq<Byte>, dlen: nat, pixels: seq<Byte>)
    ensures dlen == 0 ==> Unpack(f, data, dlen, pixels) == RowResult(true, data, pixels)
    ensures dlen > 0 && |data| < 2 ==> Unpack(f, data, dlen, pixels) == RowResult(false, data, pixels)
    ensures dlen > 0 && |data| >= 2 && data[0] < 128 ==>
      var n, r := data[0] + 1, Unpack(f, data, dlen, pixels);
      if f.room < |pixels| + n then r == RowResult(true, data[1..], pixels)
      else if |data| < n + 1 then r == RowResult(false, data[1..], pixels)
      else r == Unpack(f, data[n + 1..], Less(dlen, n + 1), pixels + data[1..n + 1])
    ensures dlen > 0 && |data| >= 2 && data[0] >= 128 ==>
      var n, r := 257 - data[0], Unpack(f, data, dlen, pixels);
      if f.room < |pixels| + n then r == RowResult(true, data[1..], pixels)
      else r == Unpack(f, data[2..], Less(dlen, 2), pixels + seq(n, _ => data[1]))
  {
    if dlen > 0 && |data| >= 2 && data[0] >= 128 {
      assert Repeat(data[1], 257 - data[0]) == seq(257 - data[0], _ => data[1]);
    }
  }

  lemma {:induction false} UnpackFits(f: Layout, data: seq<Byte>, dlen: nat, pixels: seq<Byte>)
    requires f.Fits(|pixels|)
    ensures f.Fits(|Unpack(f, data, dlen, pixels).pixels|)
    decreases |data|
  {
    match StepAt(f, data, dlen, pixels) {
      case Stop(_) =>
      case Go(left, dlen', pixels') => UnpackFits(f, left, dlen', pixels');
    }
  }

  // Painting pixels into the buffer

  /** The buffer with these pixels of a row written to plane p. */
  function Paint(f: Layout, pic: seq<Byte>, p: nat, row: nat, pixels: seq<Byte>): (r: seq<Byte>)
    requires f.Valid() && p < f.planes && row < f.height && f.Fits(|pixels|) && |pic| == f.height * f.linesize
    ensures |r| == |pic|
    decreases |pixels|
  {
    if pixels == [] then pic
    else
      var n := |pixels| - 1;
      AtIsOwned(f, p, row, n);
      Paint(f, pic, p, row, pixels[..n])[f.At(p, row, n) := pixels[n]]
  }

  lemma {:induction false} PaintHits(f: Layout, pic: seq<Byte>, p: nat, row: nat, pixels: seq<Byte>, k: nat)
    requires f.Valid() && p < f.planes && row < f.height && f.Fits(|pixels|) && |pic| == f.height * f.linesize
    requires k < |pixels|
    ensures 0 <= f.At(p, row, k) < |pic| && Paint(f, pic, p, row, pixels)[f.At(p, row, k)] == pixels[k]
    decreases |pixels|
  {
    var n := |pixels| - 1;
    AtIsOwned(f, p, row, k);
    AtIsOwned(f, p, row, n);
    if n <= k {
    } else {
      PaintHits(f, pic, p, row, pixels[..n], k);
      AtDiffers(f, p, row, k, n);
    }
  }

  lemma AtDiffers(f: Layout, p: nat, row: nat, k: nat, n: nat)
    requires f.Valid() && p < f.planes && k < n
    ensures f.At(p, row, k) < f.At(p, row, n)
  {
    MulStep(k, n, f.px_inc);
  }

  /** Painting leaves every other row, and every byte of another plane or of none, as it was. */
  lemma {:induction false} PaintSpares(f: Layout, pic: seq<Byte>, p: nat, row: nat, pixels: seq<Byte>, i: nat)
    requires f.Valid() && p < f.planes && row < f.height && f.Fits(|pixels|) && |pic| == f.height * f.linesize
    requires i < |pic| && (i / f.linesize != row || !f.Owns(p, i))
    ensures Paint(f, pic, p, row, pixels)[i] == pic[i]
    decreases |pixels|
  {
    if pixels == [] {
    } else {
      var n := |pixels| - 1;
      AtIsOwned(f, p, row, n);
      PaintSpares(f, pic, p, row, pixels[..n], i);
    }
  }

  // A frame, as a function of the input

  datatype State = State(ok: bool, data: seq<Byte>, pic: seq<Byte>)

  /** The big-endian 16-bit lengths at the head of the frame. */
  function LengthAt(buf: seq<Byte>, j: nat): (r: nat)
    requires 2 * j + 1 < |buf|
    ensures r < 0x1_0000
  {
    var high: nat := buf[2 * j];
    256 * high + buf[2 * j + 1]
  }

  ghost predicate Ready(f: Layout, buf: seq<Byte>, s: State) {
    f.Valid() && |s.pic| == f.height * f.linesize && f.DataStart() <= |buf|
  }

  lemma LengthInTable(f: Layout, p: nat, row: nat)
    requires p < f.coded && row < f.height
    ensures 2 * (p * f.height + row) + 1 < f.DataStart()
  {
    assert (p + 1) * f.height <= f.coded * f.height;
    assert (p + 1) * f.height == p * f.height + f.height;
  }

  /** The length the table gives for a row. */
  function LengthAtRow(f: Layout, buf: seq<Byte>, p: nat, row: nat): (r: nat)
    requires f.DataStart() <= |buf| && p < f.coded && row < f.height
    ensures r < 0x1_0000
  {
    LengthInTable(f, p, row);
    LengthAt(buf, p * f.height + row)
  }

  function RowDone(f: Layout, buf: seq<Byte>, s: State, p: nat, row: nat): (r: State)
    requires Ready(f, buf, s) && p < f.planes && row < f.height
    ensures Ready(f, buf, r)
  {
    UnpackFits(f, s.data, LengthAtRow(f, buf, p, row), []);
    var r := Unpack(f, s.data, LengthAtRow(f, buf, p, row), []);
    State(r.ok, r.left, Paint(f, s.pic, p, row, r.pixels))
  }

  function RowsDone(f: Layout, buf: seq<Byte>, s: State, p: nat, rows: nat): (r: State)
    requires Ready(f, buf, s) && p < f.planes && rows <= f.height
    ensures Ready(f, buf, r)
  {
    if rows == 0 then s
    else
      var r := RowsDone(f, buf, s, p, rows - 1);
      if r.ok then RowDone(f, buf, r, p, rows - 1) else r
  }

  function PlanesDone(f: Layout, buf: seq<Byte>, s: State, planes: nat): (r: State)
    requires Ready(f, buf, s) && planes <= f.planes
    ensures Ready(f, buf, r)
  {
    if planes == 0 then s
    else
      var r := PlanesDone(f, buf, s, planes - 1);
      if r.ok then RowsDone(f, buf, r, planes - 1, f.height) else r
  }

  /** The outcome for a frame, and the picture it leaves of the one before. */
  function Decoded(f: Layout, buf: seq<Byte>, pic: seq<Byte>): State
    requires f.Valid() && |pic| == f.height * f.linesize && f.DataStart() <= |buf|
  {
    PlanesDone(f, buf, State(true, buf[f.DataStart()..], pic), f.planes)
  }

  lemma {:induction false} RowsStuck(f: Layout, buf: seq<Byte>, s: State, p: nat, m: nat, n: nat)
    requires Ready(f, buf, s) && p < f.planes && m <= n <= f.height && !RowsDone(f, buf, s, p, m).ok
    ensures RowsDone(f, buf, s, p, n) == RowsDone(f, buf, s, p, m)
    decreases n - m
  {
    if n <= m {
    } else {
      RowsStuck(f, buf, s, p, m, n - 1);
    }
  }

  lemma {:induction false} PlanesStuck(f: Layout, buf: seq<Byte>, s: State, m: nat, n: nat)
    requires Ready(f, buf, s) && m <= n <= f.planes && !PlanesDone(f, buf, s, m).ok
    ensures PlanesDone(f, buf, s, n) == PlanesDone(f, buf, s, m)
    decreases n - m
  {
    if n <= m {
    } else {
      PlanesStuck(f, buf, s, m, n - 1);
    }
  }

  // The code

  lemma FitsTogether(f: Layout, p: nat, row: nat, k: nat, count: nat)
    requires f.Valid() && p < |f.planemap|
    ensures f.At(p, row, k) + count * f.px_inc <= f.At(p, row, 0) + f.linesize <==> f.Fits(k + count)
    ensures f.At(p, row, k + count) == f.At(p, row, k) + count * f.px_inc
  {
    FitsMeans(f, k + count);
    assert (k + count) * f.px_inc == k * f.px_inc + count * f.px_inc;
  }

  /** The bytes of a literal, one pixel each. */
  method CopyLiteral(f: Layout, buf: seq<Byte>, dp: nat, count: nat, pic: array<Byte>, p: nat, row: nat, pixptr: int,
                     ghost pic0: seq<Byte>, ghost pixels: seq<Byte>)
    returns (dp': nat, pixptr': int)
    requires f.Valid() && p < f.planes && row < f.height && f.Fits(|pixels| + count) && f.Fits(|pixels|)
    requires |pic0| == f.height * f.linesize && pic[..] == Paint(f, pic0, p, row, pixels)
    requires pixptr == f.At(p, row, |pixels|) && dp + count <= |buf|
    modifies pic
    ensures dp' == dp + count && pixptr' == f.At(p, row, |pixels| + count)
    ensures pic[..] == Paint(f, pic0, p, row, pixels + buf[dp..dp + count])
  {
    dp', pixptr' := dp, pixptr;
    var left := count;
    ghost var drawn := pixels;
    assert pixels + buf[dp..dp] == pixels;
    while left != 0
      invariant 0 <= left <= count && dp' == dp + count - left && |drawn| == |pixels| + count - left
      invariant pixptr' == f.At(p, row, |drawn|) && f.Fits(|drawn|)
      invariant drawn == pixels + buf[dp..dp'] && pic[..] == Paint(f, pic0, p, row, drawn)
    {
      ghost var more := drawn + [buf[dp']];
      AtIsOwned(f, p, row, |drawn|);
      PaintOneMore(f, pic0, p, row, drawn, buf[dp']);
      OneMoreByte(pixels, buf, dp, dp', more);
      FitsTogether(f, p, row, |drawn|, 1);
      pic[pixptr'] := buf[dp'];
      dp' := dp' + 1;
      pixptr' := pixptr' + f.px_inc;
      left := left - 1;
      drawn := more;
    }
  }

  lemma OneMoreByte(pixels: seq<Byte>, buf: seq<Byte>, from: nat, to: nat, more: seq<Byte>)
    requires from <= to < |buf| && more == pixels + buf[from..to] + [buf[to]]
    ensures more == pixels + buf[from..to + 1]
  {
  }

  lemma PaintOneMore(f: Layout, pic: seq<Byte>, p: nat, row: nat, pixels: seq<Byte>, b: Byte)
    requires f.Valid() && p < f.planes && row < f.height && |pic| == f.height * f.linesize
    requires f.Fits(|pixels|) && f.Fits(|pixels| + 1)
    ensures 0 <= f.At(p, row, |pixels|) < |pic|
    ensures Paint(f, pic, p, row, pixels + [b]) == Paint(f, pic, p, row, pixels)[f.At(p, row, |pixels|) := b]
  {
    AtIsOwned(f, p, row, |pixels|);
    assert (pixels + [b])[..|pixels|] == pixels;
  }

  /** The repetitions of a run. */
  method CopyRun(f: Layout, b: Byte, count: nat, pic: array<Byte>, p: nat, row: nat, pixptr: int,
                 ghost pic0: seq<Byte>, ghost pixels: seq<Byte>)
    returns (pixptr': int)
    requires f.Valid() && p < f.planes && row < f.height && f.Fits(|pixels| + count) && f.Fits(|pixels|)
    requires |pic0| == f.height * f.linesize && pic[..] == Paint(f, pic0, p, row, pixels)
    requires pixptr == f.At(p, row, |pixels|)
    modifies pic
    ensures pixptr' == f.At(p, row, |pixels| + count)
    ensures pic[..] == Paint(f, pic0, p, row, pixels + Repeat(b, count))
  {
    pixptr' := pixptr;
    var left := count;
    assert pixels + Repeat(b, 0) == pixels;
    while left != 0
      invariant 0 <= left <= count && pixptr' == f.At(p, row, |pixels| + count - left)
      invariant f.Fits(|pixels| + count - left)
      invariant pic[..] == Paint(f, pic0, p, row, pixels + Repeat(b, count - left))
    {
      ghost var n := |pixels| + count - left;
      AtIsOwned(f, p, row, n);
      PaintOneMore(f, pic0, p, row, pixels + Repeat(b, count - left), b);
      assert pixels + Repeat(b, count - left + 1) == pixels + Repeat(b, count - left) + [b];
      FitsTogether(f, p, row, n, 1);
      pic[pixptr'] := b;
      pixptr' := pixptr' + f.px_inc;
      left := left - 1;
    }
  }

  lemma SliceOfRest(buf: seq<Byte>, dp: nat, skip: nat, count: nat)
    requires dp + skip + count <= |buf|
    ensures buf[dp..][skip..skip + count] == buf[dp + skip..dp + skip + count]
    ensures buf[dp..][skip + count..] == buf[dp + skip + count..]
  {
  }

  /** One control byte and what belongs to it. Without more, the row ends here. */
  method DecodePacket(f: Layout, buf: seq<Byte>, start: nat, length: nat, pic: array<Byte>, p: nat, row: nat, at: int,
                      pixptr_end: int, ghost pic0: seq<Byte>, ghost pixels: seq<Byte>)
    returns (more: bool, ok: bool, dp: nat, dlen: nat, pixptr: int, ghost pixels': seq<Byte>)
    requires f.Valid() && p < f.planes && row < f.height && f.Fits(|pixels|) && start <= |buf| && length > 0
    requires |pic0| == f.height * f.linesize && pic[..] == Paint(f, pic0, p, row, pixels)
    requires at == f.At(p, row, |pixels|) && pixptr_end == f.At(p, row, 0) + f.linesize
    modifies pic
    ensures dp <= |buf| && f.Fits(|pixels'|) && pixptr == f.At(p, row, |pixels'|)
    ensures StepAt(f, buf[start..], length, pixels)
         == if more then Go(buf[dp..], dlen, pixels') else Stop(RowResult(ok, buf[dp..], pixels'))
    ensures pic[..] == Paint(f, pic0, p, row, pixels')
  {
    more, ok, dp, dlen, pixptr, pixels' := false, true, start, length, at, pixels;
    if dp + 1 >= |buf| {
      return false, false, dp, dlen, pixptr, pixels;
    }
    ghost var data := buf[start..];
    var control: nat := buf[dp];
    dp := dp + 1;
    assert data[0] == control && data[1] == buf[dp] && data[1..] == buf[dp..];
    if control <= 127 {
      var count := control + 1;
      dlen := Less(dlen, count + 1);
      FitsTogether(f, p, row, |pixels|, count);
      if pixptr + count * f.px_inc > pixptr_end {
        return;
      }
      if dp + count > |buf| {
        ok := false;
        return;
      }
      SliceOfRest(buf, start, 1, count);
      pixels' := pixels + buf[dp..dp + count];
      dp, pixptr := CopyLiteral(f, buf, dp, count, pic, p, row, pixptr, pic0, pixels);
    } else {
      var count := 257 - control;
      FitsTogether(f, p, row, |pixels|, count);
      if pixptr + count * f.px_inc > pixptr_end {
        return;
      }
      SliceOfRest(buf, start, 2, 0);
      pixptr := CopyRun(f, buf[dp], count, pic, p, row, pixptr, pic0, pixels);
      pixels' := pixels + Repeat(buf[dp], count);
      dp := dp + 1;
      dlen := Less(dlen, 2);
    }
    more := true;
  }

  /** One row of one plane; false where the frame is refused. */
  method DecodeRow(f: Layout, buf: seq<Byte>, start: nat, length: nat, pic: array<Byte>, p: nat, row: nat)
    returns (ok: bool, dp: nat)
    requires f.Valid() && p < f.planes && row < f.height && pic.Length == f.height * f.linesize && start <= |buf|
    modifies pic
    ensures var r := Unpack(f, buf[start..], length, []);
      ok == r.ok && dp <= |buf| && buf[dp..] == r.left && f.Fits(|r.pixels|)
    ensures pic[..] == Paint(f, old(pic[..]), p, row, Unpack(f, buf[start..], length, []).pixels)
  {
    ghost var pic0 := pic[..];
    ghost var result := Unpack(f, buf[start..], length, []);
    ghost var pixels: seq<Byte> := [];
    var pixptr: int := row * f.linesize + f.planemap[p];
    var pixptr_end := pixptr + f.linesize;
    var dlen := length;
    dp := start;
    while dlen > 0
      invariant dp <= |buf| && f.Fits(|pixels|)
      invariant pixptr == f.At(p, row, |pixels|) && pixptr_end == f.At(p, row, 0) + f.linesize
      invariant pic[..] == Paint(f, pic0, p, row, pixels)
      invariant result == Unpack(f, buf[dp..], dlen, pixels)
      decreases |buf| - dp
    {
      var more: bool;
      more, ok, dp, dlen, pixptr, pixels := DecodePacket(f, buf, dp, dlen, pic, p, row, pixptr, pixptr_end, pic0,
        pixels);
      if !more {
        return;
      }
    }
    ok := true;
  }

  /** decode_frame; false where it returns -1. */
  method DecodeFrame(f: Layout, buf: seq<Byte>, pic: array<Byte>) returns (ok: bool)
    requires f.Valid() && pic.Length == f.height * f.linesize && f.DataStart() <= |buf|
    modifies pic
    ensures ok == Decoded(f, buf, old(pic[..])).ok && pic[..] == Decoded(f, buf, old(pic[..])).pic
  {
    ghost var s0 := State(true, buf[f.DataStart()..], pic[..]);
    var dp: nat := f.DataStart();
    var p := 0;
    while p < f.planes
      invariant p <= f.planes && dp <= |buf| && PlanesDone(f, buf, s0, p) == State(true, buf[dp..], pic[..])
    {
      ok, dp := DecodePlane(f, buf, dp, pic, p);
      if !ok {
        PlanesStuck(f, buf, s0, p + 1, f.planes);
        return;
      }
      p := p + 1;
    }
    ok := true;
  }

  /** The row whose length is next in the table. */
  method DecodeNextRow(f: Layout, buf: seq<Byte>, start: nat, pic: array<Byte>, p: nat, row: nat)
    returns (ok: bool, dp: nat)
    requires f.Valid() && pic.Length == f.height * f.linesize && f.DataStart() <= |buf| && p < f.planes
    requires row < f.height && start <= |buf|
    modifies pic
    ensures dp <= |buf|
    ensures RowDone(f, buf, State(true, buf[start..], old(pic[..])), p, row) == State(ok, buf[dp..], pic[..])
  {
    LengthInTable(f, p, row);
    var dlen := LengthAt(buf, p * f.height + row);
    ok, dp := DecodeRow(f, buf, start, dlen, pic, p, row);
  }

  /** All rows of a plane. */
  method DecodePlane(f: Layout, buf: seq<Byte>, start: nat, pic: array<Byte>, p: nat) returns (ok: bool, dp: nat)
    requires f.Valid() && pic.Length == f.height * f.linesize && f.DataStart() <= |buf| && p < f.planes
    requires start <= |buf|
    modifies pic
    ensures dp <= |buf|
    ensures RowsDone(f, buf, State(true, buf[start..], old(pic[..])), p, f.height) == State(ok, buf[dp..], pic[..])
  {
    ghost var s0 := State(true, buf[start..], pic[..]);
    dp := start;
    var row := 0;
    while row < f.height
      invariant row <= f.height && dp <= |buf| && RowsDone(f, buf, s0, p, row) == State(true, buf[dp..], pic[..])
    {
      ok, dp := DecodeNextRow(f, buf, dp, pic, p, row);
      if !ok {
        RowsStuck(f, buf, s0, p, row + 1, f.height);
        return;
      }
      row := row + 1;
    }
    ok := true;
  }

  // Well-formed frames

  datatype Packet = Literal(bytes: seq<Byte>) | Run(count: nat, b: Byte)

  predicate PacketOk(k: Packet) {
    match k
    case Literal(bytes) => 1 <= |bytes| <= 128
    case Run(count, _) => 2 <= count <= 129
  }

  function Coded(k: Packet): (r: seq<Byte>)
    requires PacketOk(k)
    ensures 2 <= |r|
  {
    match k
    case Literal(bytes) => [|bytes| - 1] + bytes
    case Run(count, b) => [257 - count, b]
  }

  function Meant(k: Packet): (r: seq<Byte>) {
    match k
    case Literal(bytes) => bytes
    case Run(count, b) => Repeat(b, count)
  }

  ghost predicate RowOk(row: seq<Packet>) {
    forall i :: 0 <= i < |row| ==> PacketOk(row[i])
  }

  function CodedRow(row: seq<Packet>): seq<Byte>
    requires RowOk(row)
  {
    if row == [] then [] else Coded(row[0]) + CodedRow(row[1..])
  }

  function Expand(row: seq<Packet>): seq<Byte> {
    if row == [] then [] else Meant(row[0]) + Expand(row[1..])
  }

  /** Reading the code of a row gives back its pixels and leaves what follows it. */
  lemma {:induction false} UnpackInverts(f: Layout, row: seq<Packet>, tail: seq<Byte>, pixels: seq<Byte>)
    requires RowOk(row) && |CodedRow(row)| < 0x1_0000 && f.Fits(|pixels| + |Expand(row)|)
    ensures Unpack(f, CodedRow(row) + tail, |CodedRow(row)|, pixels) == RowResult(true, tail, pixels + Expand(row))
    decreases |row|
  {
    if row == [] {
      assert CodedRow(row) + tail == tail;
      assert pixels + Expand(row) == pixels;
    } else {
      var rest := CodedRow(row[1..]);
      UnpackInverts(f, row[1..], tail, pixels + Meant(row[0]));
      PacketThenRest(f, row[0], rest + tail, |rest|, pixels, tail, pixels + Meant(row[0]) + Expand(row[1..]));
      Reassociate(Coded(row[0]), rest, tail);
      Reassociate(pixels, Meant(row[0]), Expand(row[1..]));
    }
  }

  lemma Reassociate(a: seq<Byte>, b: seq<Byte>, c: seq<Byte>)
    ensures a + b + c == a + (b + c)
  {
  }

  lemma PacketThenRest(f: Layout, k: Packet, left: seq<Byte>, dlen: nat, pixels: seq<Byte>, tail: seq<Byte>,
                       out: seq<Byte>)
    requires PacketOk(k) && |Coded(k)| + dlen < 0x1_0000 && f.Fits(|pixels| + |Meant(k)|)
    requires Unpack(f, left, dlen, pixels + Meant(k)) == RowResult(true, tail, out)
    ensures Unpack(f, Coded(k) + left, |Coded(k)| + dlen, pixels) == RowResult(true, tail, out)
  {
    FirstPacket(f, k, left, |Coded(k)| + dlen, pixels);
  }

  lemma FirstPacket(f: Layout, k: Packet, left: seq<Byte>, dlen: nat, pixels: seq<Byte>)
    requires PacketOk(k) && |Coded(k)| <= dlen < 0x1_0000 && f.Fits(|pixels| + |Meant(k)|)
    ensures StepAt(f, Coded(k) + left, dlen, pixels) == Go(left, dlen - |Coded(k)|, pixels + Meant(k))
  {
    var data := Coded(k) + left;
    assert data[|Coded(k)|..] == left;
    if k.Literal? {
      assert data[1..1 + |k.bytes|] == k.bytes;
    }
  }

  /** The codes of these rows, one after the other. */
  function Data(rows: seq<seq<Packet>>): seq<Byte>
    requires forall j :: 0 <= j < |rows| ==> RowOk(rows[j])
  {
    if rows == [] then [] else CodedRow(rows[0]) + Data(rows[1..])
  }

  ghost predicate PlaneOk(f: Layout, plane: seq<seq<Packet>>) {
    |plane| == f.height && forall j :: 0 <= j < |plane| ==>
      RowOk(plane[j]) && |CodedRow(plane[j])| < 0x1_0000 && f.Fits(|Expand(plane[j])|)
  }

  function FrameData(f: Layout, frame: seq<seq<seq<Packet>>>): seq<Byte>
    requires forall p :: 0 <= p < |frame| ==> PlaneOk(f, frame[p])
  {
    if frame == [] then []
    else
      assert PlaneOk(f, frame[0]);
      Data(frame[0]) + FrameData(f, frame[1..])
  }

  /** The table gives the lengths of the rows of a plane. */
  ghost predicate LengthsOf(f: Layout, buf: seq<Byte>, p: nat, plane: seq<seq<Packet>>)
    requires f.DataStart() <= |buf| && p < f.coded && PlaneOk(f, plane)
  {
    forall r :: 0 <= r < f.height ==> LengthAtRow(f, buf, p, r) == |CodedRow(plane[r])|
  }

  /** A frame holding these planes. Whatever follows the planes that are used, such as the alpha plane, is not looked
      at. */
  ghost predicate WellFormed(f: Layout, buf: seq<Byte>, frame: seq<seq<seq<Packet>>>, after: seq<Byte>) {
    && f.Valid() && |frame| == f.planes && f.DataStart() <= |buf|
    && (forall p :: 0 <= p < |frame| ==> PlaneOk(f, frame[p]) && LengthsOf(f, buf, p, frame[p]))
    && buf[f.DataStart()..] == FrameData(f, frame) + after
  }

  // What the picture shows

  ghost predicate RowShown(f: Layout, pic: seq<Byte>, p: nat, row: nat, pixels: seq<Byte>)
    requires p < |f.planemap|
  {
    forall k :: 0 <= k < |pixels| ==> 0 <= f.At(p, row, k) < |pic| && pic[f.At(p, row, k)] == pixels[k]
  }

  /** Decoding row r of plane q does not disturb another row or plane. */
  lemma RowStays(f: Layout, buf: seq<Byte>, s: State, q: nat, r: nat, p: nat, row: nat, pixels: seq<Byte>)
    requires Ready(f, buf, s) && p < f.planes && q < f.planes && row < f.height && r < f.height && (p != q || row != r)
    requires f.Fits(|pixels|) && RowShown(f, s.pic, p, row, pixels)
    ensures RowShown(f, RowDone(f, buf, s, q, r).pic, p, row, pixels)
  {
    var length := LengthAtRow(f, buf, q, r);
    UnpackFits(f, s.data, length, []);
    var painted := Unpack(f, s.data, length, []).pixels;
    forall k | 0 <= k < |pixels|
      ensures RowDone(f, buf, s, q, r).pic[f.At(p, row, k)] == pixels[k]
    {
      AtIsOwned(f, p, row, k);
      PaintSpares(f, s.pic, q, r, painted, f.At(p, row, k));
    }
  }

  /** Whatever the input, decoding a row touches only its plane and row. */
  lemma RowSpares(f: Layout, buf: seq<Byte>, s: State, p: nat, row: nat, i: nat)
    requires Ready(f, buf, s) && p < f.planes && row < f.height && i < |s.pic|
    requires i / f.linesize != row || !f.Owns(p, i)
    ensures RowDone(f, buf, s, p, row).pic[i] == s.pic[i]
  {
    var length := LengthAtRow(f, buf, p, row);
    UnpackFits(f, s.data, length, []);
    PaintSpares(f, s.pic, p, row, Unpack(f, s.data, length, []).pixels, i);
  }

  lemma {:induction false} RowsSpare(f: Layout, buf: seq<Byte>, s: State, p: nat, rows: nat, i: nat)
    requires Ready(f, buf, s) && p < f.planes && rows <= f.height && i < |s.pic| && !f.Owns(p, i)
    ensures RowsDone(f, buf, s, p, rows).pic[i] == s.pic[i]
  {
    if rows == 0 {
    } else {
      RowsSpare(f, buf, s, p, rows - 1, i);
      if RowsDone(f, buf, s, p, rows - 1).ok {
        RowSpares(f, buf, RowsDone(f, buf, s, p, rows - 1), p, rows - 1, i);
      }
    }
  }

  lemma {:induction false} OtherBytesSpared(f: Layout, buf: seq<Byte>, s: State, planes: nat, i: nat)
    requires Ready(f, buf, s) && planes <= f.planes && i < |s.pic|
    requires forall p :: 0 <= p < f.planes ==> !f.Owns(p, i)
    ensures PlanesDone(f, buf, s, planes).pic[i] == s.pic[i]
  {
    if planes == 0 {
    } else {
      OtherBytesSpared(f, buf, s, planes - 1, i);
      if PlanesDone(f, buf, s, planes - 1).ok {
        RowsSpare(f, buf, PlanesDone(f, buf, s, planes - 1), planes - 1, f.height, i);
      }
    }
  }

  /** Whatever the input, a byte of no plane, such as the fourth of a 32-bit pixel, keeps its value. */
  lemma OtherBytesKept(f: Layout, buf: seq<Byte>, pic: seq<Byte>, i: nat)
    requires f.Valid() && |pic| == f.height * f.linesize && f.DataStart() <= |buf| && i < |pic|
    requires forall p :: 0 <= p < f.planes ==> !f.Owns(p, i)
    ensures Decoded(f, buf, pic).pic[i] == pic[i]
  {
    OtherBytesSpared(f, buf, State(true, buf[f.DataStart()..], pic), f.planes, i);
  }

  /** A row whose code comes next is shown, and what follows the code is left. */
  lemma RowInverts(f: Layout, buf: seq<Byte>, s: State, p: nat, r: nat, row: seq<Packet>, tail: seq<Byte>)
    requires Ready(f, buf, s) && p < f.planes && r < f.height && RowOk(row) && s.data == CodedRow(row) + tail
    requires |CodedRow(row)| < 0x1_0000 && f.Fits(|Expand(row)|) && LengthAtRow(f, buf, p, r) == |CodedRow(row)|
    ensures RowDone(f, buf, s, p, r).ok && RowDone(f, buf, s, p, r).data == tail
    ensures RowShown(f, RowDone(f, buf, s, p, r).pic, p, r, Expand(row))
  {
    UnpackInverts(f, row, tail, []);
    assert [] + Expand(row) == Expand(row);
    forall k | 0 <= k < |Expand(row)|
      ensures 0 <= f.At(p, r, k) < |s.pic| && RowDone(f, buf, s, p, r).pic[f.At(p, r, k)] == Expand(row)[k]
    {
      PaintHits(f, s.pic, p, r, Expand(row), k);
    }
  }

  lemma {:induction false} RowsInvert(f: Layout, buf: seq<Byte>, plane: seq<seq<Packet>>, tail: seq<Byte>, s: State,
                                      p: nat, n: nat)
    requires Ready(f, buf, s) && p < f.planes && n <= f.height && PlaneOk(f, plane) && LengthsOf(f, buf, p, plane)
    requires s.ok && s.data == Data(plane) + tail
    ensures RowsDone(f, buf, s, p, n).ok && RowsDone(f, buf, s, p, n).data == Data(plane[n..]) + tail
    ensures forall row :: 0 <= row < n ==> RowShown(f, RowsDone(f, buf, s, p, n).pic, p, row, Expand(plane[row]))
  {
    if n == 0 {
      assert plane[0..] == plane;
    } else {
      var r := n - 1;
      RowsInvert(f, buf, plane, tail, s, p, r);
      OneMoreRow(f, buf, plane, tail, RowsDone(f, buf, s, p, r), p, r);
    }
  }

  lemma OneMoreRow(f: Layout, buf: seq<Byte>, plane: seq<seq<Packet>>, tail: seq<Byte>, t: State, p: nat, r: nat)
    requires Ready(f, buf, t) && p < f.planes && r < f.height && PlaneOk(f, plane) && LengthsOf(f, buf, p, plane)
    requires t.data == Data(plane[r..]) + tail
    requires forall row :: 0 <= row < r ==> RowShown(f, t.pic, p, row, Expand(plane[row]))
    ensures RowDone(f, buf, t, p, r).ok && RowDone(f, buf, t, p, r).data == Data(plane[r + 1..]) + tail
    ensures forall row :: 0 <= row <= r ==> RowShown(f, RowDone(f, buf, t, p, r).pic, p, row, Expand(plane[row]))
  {
    assert plane[r..][0] == plane[r] && plane[r..][1..] == plane[r + 1..];
    assert t.data == CodedRow(plane[r]) + (Data(plane[r + 1..]) + tail);
    RowInverts(f, buf, t, p, r, plane[r], Data(plane[r + 1..]) + tail);
    forall row | 0 <= row < r
      ensures RowShown(f, RowDone(f, buf, t, p, r).pic, p, row, Expand(plane[row]))
    {
      RowStays(f, buf, t, p, r, p, row, Expand(plane[row]));
    }
  }

  lemma {:induction false} RowsStay(f: Layout, buf: seq<Byte>, s: State, q: nat, n: nat, p: nat, row: nat,
                                    pixels: seq<Byte>)
    requires Ready(f, buf, s) && p < q < f.planes && row < f.height && n <= f.height && f.Fits(|pixels|)
    requires RowShown(f, s.pic, p, row, pixels)
    ensures RowShown(f, RowsDone(f, buf, s, q, n).pic, p, row, pixels)
  {
    if n == 0 {
    } else {
      RowsStay(f, buf, s, q, n - 1, p, row, pixels);
      if RowsDone(f, buf, s, q, n - 1).ok {
        RowStays(f, buf, RowsDone(f, buf, s, q, n - 1), q, n - 1, p, row, pixels);
      }
    }
  }

  ghost predicate PlaneShown(f: Layout, pic: seq<Byte>, p: nat, plane: seq<seq<Packet>>)
    requires p < |f.planemap|
  {
    forall row :: 0 <= row < |plane| ==> RowShown(f, pic, p, row, Expand(plane[row]))
  }

  lemma PlaneStays(f: Layout, buf: seq<Byte>, s: State, q: nat, p: nat, plane: seq<seq<Packet>>)
    requires Ready(f, buf, s) && p < q < f.planes && PlaneOk(f, plane) && PlaneShown(f, s.pic, p, plane)
    ensures PlaneShown(f, RowsDone(f, buf, s, q, f.height).pic, p, plane)
  {
    forall row | 0 <= row < f.height
      ensures RowShown(f, RowsDone(f, buf, s, q, f.height).pic, p, row, Expand(plane[row]))
    {
      RowsStay(f, buf, s, q, f.height, p, row, Expand(plane[row]));
    }
  }

  lemma {:induction false} PlanesInvert(f: Layout, buf: seq<Byte>, frame: seq<seq<seq<Packet>>>, after: seq<Byte>,
                                        s: State, n: nat)
    requires WellFormed(f, buf, frame, after) && Ready(f, buf, s) && n <= f.planes
    requires s.ok && s.data == FrameData(f, frame) + after
    ensures PlanesDone(f, buf, s, n).ok && PlanesDone(f, buf, s, n).data == FrameData(f, frame[n..]) + after
    ensures forall p :: 0 <= p < n ==> PlaneShown(f, PlanesDone(f, buf, s, n).pic, p, frame[p])
  {
    if n == 0 {
      assert frame[0..] == frame;
    } else {
      var q := n - 1;
      PlanesInvert(f, buf, frame, after, s, q);
      OneMorePlane(f, buf, frame, after, PlanesDone(f, buf, s, q), q);
    }
  }

  lemma OneMorePlane(f: Layout, buf: seq<Byte>, frame: seq<seq<seq<Packet>>>, after: seq<Byte>, t: State, q: nat)
    requires WellFormed(f, buf, frame, after) && Ready(f, buf, t) && q < f.planes
    requires t.ok && t.data == FrameData(f, frame[q..]) + after
    requires forall p :: 0 <= p < q ==> PlaneShown(f, t.pic, p, frame[p])
    ensures var out := RowsDone(f, buf, t, q, f.height);
      out.ok && out.data == FrameData(f, frame[q + 1..]) + after && forall p :: 0 <= p <= q ==>
        PlaneShown(f, out.pic, p, frame[p])
  {
    PlaneSplits(f, frame, after, q);
    PlaneInverts(f, buf, frame[q], FrameData(f, frame[q + 1..]) + after, t, q);
    forall p | 0 <= p < q
      ensures PlaneShown(f, RowsDone(f, buf, t, q, f.height).pic, p, frame[p])
    {
      PlaneStays(f, buf, t, q, p, frame[p]);
    }
  }

  lemma PlaneSplits(f: Layout, frame: seq<seq<seq<Packet>>>, after: seq<Byte>, q: nat)
    requires q < |frame| && forall p :: 0 <= p < |frame| ==> PlaneOk(f, frame[p])
    ensures PlaneOk(f, frame[q])
    ensures FrameData(f, frame[q..]) + after == Data(frame[q]) + (FrameData(f, frame[q + 1..]) + after)
  {
    assert frame[q..][0] == frame[q] && frame[q..][1..] == frame[q + 1..];
  }

  lemma PlaneInverts(f: Layout, buf: seq<Byte>, plane: seq<seq<Packet>>, tail: seq<Byte>, t: State, q: nat)
    requires Ready(f, buf, t) && t.ok && q < f.planes && PlaneOk(f, plane) && LengthsOf(f, buf, q, plane)
    requires t.data == Data(plane) + tail
    ensures var out := RowsDone(f, buf, t, q, f.height); out.ok && out.data == tail && PlaneShown(f, out.pic, q, plane)
  {
    RowsInvert(f, buf, plane, tail, t, q, f.height);
    assert plane[f.height..] == [];
    assert [] + tail == tail;
  }

  /** A well-formed frame is accepted, and every pixel of every used plane is at its place. */
  lemma DecodingInverts(f: Layout, buf: seq<Byte>, frame: seq<seq<seq<Packet>>>, after: seq<Byte>, pic: seq<Byte>)
    requires WellFormed(f, buf, frame, after) && |pic| == f.height * f.linesize
    ensures Decoded(f, buf, pic).ok
    ensures forall p :: 0 <= p < f.planes ==> PlaneShown(f, Decoded(f, buf, pic).pic, p, frame[p])
  {
    PlanesInvert(f, buf, frame, after, State(true, buf[f.DataStart()..], pic), f.planes);
  }

  // The colours of the three depths

  /** The rows' lengths of all coded planes, two bytes each and those of the alpha plane included, come first. */
  lemma DataBehindLengths(depth: nat, isRgb32: bool, bigEndian: bool, linesize: nat, height: nat)
    requires 0 < linesize && depth in {8, 24, 32}
    ensures LayoutFor(depth, isRgb32, bigEndian, linesize, height)[0].DataStart() == depth / 8 * height * 2
  {
  }

  ghost predicate Shows(pic: seq<Byte>, at: nat, b: Byte) {
    at < |pic| && pic[at] == b
  }

  /** What is shown of plane p in the pixel whose bytes begin at base. */
  lemma ByteShown(f: Layout, pic: seq<Byte>, p: nat, row: nat, pixels: seq<Byte>, k: nat, px: nat, base: nat, at: nat)
    requires p < |f.planemap| && RowShown(f, pic, p, row, pixels) && k < |pixels|
    requires px == f.px_inc && base == row * f.linesize + k * px && at == base + f.planemap[p]
    ensures Shows(pic, at, pixels[k])
  {
    assert at == f.At(p, row, k);
  }

  /** A palette index is a pixel of its own. */
  lemma IndexShown(isRgb32: bool, bigEndian: bool, linesize: nat, height: nat, pic: seq<Byte>, row: nat,
                   pixels: seq<Byte>, k: nat)
    requires 0 < linesize && k < |pixels|
    requires RowShown(LayoutFor(8, isRgb32, bigEndian, linesize, height)[0], pic, 0, row, pixels)
    ensures Shows(pic, row * linesize + k, pixels[k])
  {
    var f := LayoutFor(8, isRgb32, bigEndian, linesize, height)[0];
    ByteShown(f, pic, 0, row, pixels, k, 1, row * linesize + k, row * linesize + k);
  }

  /** Where the planes go within a pixel, and how far it is to the next one. */
  lemma PlacesAre(depth: nat, isRgb32: bool, bigEndian: bool, linesize: nat, height: nat)
    requires depth in {24, 32} && 0 < linesize
    ensures var f := LayoutFor(depth, isRgb32, bigEndian, linesize, height)[0];
      && f.planes == 3 && |f.planemap| >= 3 && f.px_inc == (if depth == 24 && !isRgb32 then 3 else 4)
      && if depth == 32 && bigEndian then f.planemap[0] == 1 && f.planemap[1] == 2 && f.planemap[2] == 3
         else f.planemap[0] == 2 && f.planemap[1] == 1 && f.planemap[2] == 0
  {
  }

  /** The first plane is red, the second green and the third blue: the bytes of a pixel, lowest address first, are
      those of the third, the second and the first plane; or, behind a byte nobody writes, of the first, the second and
      the third one where 32-bit pixels are big-endian. */
  lemma ColoursShown(depth: nat, isRgb32: bool, bigEndian: bool, linesize: nat, height: nat, pic: seq<Byte>, row: nat,
                     red: seq<Byte>, green: seq<Byte>, blue: seq<Byte>, k: nat, px: nat, base: nat)
    requires depth in {24, 32} && 0 < linesize && k < |red| && k < |green| && k < |blue|
    requires var f := LayoutFor(depth, isRgb32, bigEndian, linesize, height)[0];
      |f.planemap| >= 3 && RowShown(f, pic, 0, row, red) && RowShown(f, pic, 1, row, green) &&
      RowShown(f, pic, 2, row, blue)
    requires px == (if depth == 24 && !isRgb32 then 3 else 4) && base == row * linesize + k * px
    ensures
      if depth == 32 && bigEndian then
        Shows(pic, base + 1, red[k]) && Shows(pic, base + 2, green[k]) && Shows(pic, base + 3, blue[k])
      else Shows(pic, base, blue[k]) && Shows(pic, base + 1, green[k]) && Shows(pic, base + 2, red[k])
  {
    var f := LayoutFor(depth, isRgb32, bigEndian, linesize, height)[0];
    PlacesAre(depth, isRgb32, bigEndian, linesize, height);
    ByteShown(f, pic, 0, row, red, k, px, base, base + f.planemap[0]);
    ByteShown(f, pic, 1, row, green, k, px, base, base + f.planemap[1]);
    ByteShown(f, pic, 2, row, blue, k, px, base, base + f.planemap[2]);
  }

  // An encoder

  /** How many of the first elements, at most max, equal the first one. */
  function RunLength(s: seq<Byte>, max: nat): (r: nat)
    requires s != [] && 0 < max
    ensures 1 <= r <= |s| && r <= max && forall i :: 0 <= i < r ==> s[i] == s[0]
  {
    if |s| == 1 || max == 1 || s[1] != s[0] then 1 else 1 + RunLength(s[1..], max - 1)
  }

  /** How many of the first elements, at most max, come before two equal ones. */
  function LiteralLength(s: seq<Byte>, max: nat): (r: nat)
    requires s != [] && 0 < max
    ensures 1 <= r <= |s| && r <= max
  {
    if |s| == 1 || max == 1 || s[1] == s[0] then 1 else 1 + LiteralLength(s[1..], max - 1)
  }

  function Pack(s: seq<Byte>): (r: seq<Packet>)
    ensures RowOk(r)
  {
    if s == [] then []
    else if RunLength(s, 129) >= 2 then [Run(RunLength(s, 129), s[0])] + Pack(s[RunLength(s, 129)..])
    else [Literal(s[..LiteralLength(s, 128)])] + Pack(s[LiteralLength(s, 128)..])
  }

  lemma {:induction false} PackMeans(s: seq<Byte>)
    ensures Expand(Pack(s)) == s && |CodedRow(Pack(s))| <= 2 * |s|
    decreases |s|
  {
    if s == [] {
    } else {
      var k, n := PackStep(s);
      PackMeans(s[n..]);
      PackedRow(k, Pack(s[n..]));
      assert s[..n] + s[n..] == s;
    }
  }

  /** The first packet of a row, and the pixels it stands for. */
  lemma PackStep(s: seq<Byte>) returns (k: Packet, n: nat)
    requires s != []
    ensures 1 <= n <= |s| && PacketOk(k) && Pack(s) == [k] + Pack(s[n..]) && Meant(k) == s[..n] && |Coded(k)| <= 2 * n
  {
    if RunLength(s, 129) >= 2 {
      n := RunLength(s, 129);
      k := Run(n, s[0]);
      RunSplits(s, n);
    } else {
      n := LiteralLength(s, 128);
      k := Literal(s[..n]);
    }
  }

  lemma PackedRow(k: Packet, row: seq<Packet>)
    requires PacketOk(k) && RowOk(row)
    ensures RowOk([k] + row) && Expand([k] + row) == Meant(k) + Expand(row)
    ensures CodedRow([k] + row) == Coded(k) + CodedRow(row)
  {
    assert ([k] + row)[1..] == row;
  }

  lemma RunSplits(s: seq<Byte>, run: nat)
    requires 0 < run <= |s| && forall i :: 0 <= i < run ==> s[i] == s[0]
    ensures Repeat(s[0], run) + s[run..] == s
  {
    assert Repeat(s[0], run) == s[..run];
  }

  /** The whole frame: the lengths of all rows of all planes, then their codes. */
  function Encode(f: Layout, frame: seq<seq<seq<Packet>>>): (r: seq<Byte>)
    requires |frame| == f.coded && forall p :: 0 <= p < |frame| ==> PlaneOk(f, frame[p])
  {
    seq(f.DataStart(), i requires 0 <= i < f.DataStart() => LengthByte(f, frame, i)) + FrameData(f, frame)
  }

  function LengthByte(f: Layout, frame: seq<seq<seq<Packet>>>, i: nat): Byte
    requires |frame| == f.coded && (forall p :: 0 <= p < |frame| ==> PlaneOk(f, frame[p])) && i < f.DataStart()
  {
    PlaceInTable(f, i / 2);
    var p, r := i / 2 / f.height, i / 2 % f.height;
    assert PlaneOk(f, frame[p]);
    var length := |CodedRow(frame[p][r])|;
    if i % 2 == 0 then length / 256 else length % 256
  }

  lemma PlaceInTable(f: Layout, j: nat)
    requires j < f.coded * f.height
    ensures 0 < f.height && 0 <= j / f.height < f.coded && 0 <= j % f.height < f.height
  {
    assert f.height != 0;
    var q := j / f.height;
    assert j == q * f.height + j % f.height;
    if f.coded < q {
      MulStep(f.coded, q, f.height);
    }
  }

  /** What the encoder writes is well formed; the planes that are not used come last. */
  lemma EncodedIsWellFormed(f: Layout, frame: seq<seq<seq<Packet>>>)
    requires f.Valid() && |frame| == f.coded && forall p :: 0 <= p < |frame| ==> PlaneOk(f, frame[p])
    ensures WellFormed(f, Encode(f, frame), frame[..f.planes], FrameData(f, frame[f.planes..]))
  {
    forall p, r | 0 <= p < f.planes && 0 <= r < f.height
      ensures LengthAtRow(f, Encode(f, frame), p, r) == |CodedRow(frame[p][r])|
    {
      LengthEncoded(f, frame, p, r);
    }
    DataSplits(f, frame, f.planes);
  }

  lemma LengthEncoded(f: Layout, frame: seq<seq<seq<Packet>>>, p: nat, r: nat)
    requires |frame| == f.coded && (forall q :: 0 <= q < |frame| ==> PlaneOk(f, frame[q])) && p < f.coded
    requires r < f.height
    ensures LengthAtRow(f, Encode(f, frame), p, r) == |CodedRow(frame[p][r])|
  {
    LengthInTable(f, p, r);
    var j := p * f.height + r;
    var low, high := 2 * j, 2 * j + 1;
    ByteOfLength(f, frame, p, r, j, 0, low);
    ByteOfLength(f, frame, p, r, j, 1, high);
    var buf, length := Encode(f, frame), |CodedRow(frame[p][r])|;
    LengthOfBytes(buf, j, low, high, length);
    LengthAtRowIs(f, buf, p, r, j);
  }

  lemma LengthAtRowIs(f: Layout, buf: seq<Byte>, p: nat, r: nat, j: nat)
    requires f.DataStart() <= |buf| && p < f.coded && r < f.height && j == p * f.height + r
    ensures 2 * j + 1 < |buf| && LengthAtRow(f, buf, p, r) == LengthAt(buf, j)
  {
    LengthInTable(f, p, r);
  }

  lemma ByteOfLength(f: Layout, frame: seq<seq<seq<Packet>>>, p: nat, r: nat, j: nat, half: nat, i: nat)
    requires |frame| == f.coded && (forall q :: 0 <= q < |frame| ==> PlaneOk(f, frame[q])) && p < f.coded
    requires r < f.height
    requires j == p * f.height + r < f.coded * f.height && half < 2 && i == 2 * j + half < f.DataStart()
    ensures PlaneOk(f, frame[p]) && f.DataStart() <= |Encode(f, frame)|
    ensures Encode(f, frame)[i] == if half == 0 then |CodedRow(frame[p][r])| / 256 else |CodedRow(frame[p][r])| % 256
  {
    EncodeAt(f, frame, i);
    LengthByteIs(f, frame, p, r, j, half);
  }

  lemma LengthOfBytes(buf: seq<Byte>, j: nat, low: nat, high: nat, length: nat)
    requires low == 2 * j && high == low + 1 && high < |buf|
    requires buf[low] == length / 256 && buf[high] == length % 256
    ensures LengthAt(buf, j) == length
  {
  }

  lemma EncodeAt(f: Layout, frame: seq<seq<seq<Packet>>>, i: nat)
    requires |frame| == f.coded && (forall q :: 0 <= q < |frame| ==> PlaneOk(f, frame[q])) && i < f.DataStart()
    ensures f.DataStart() <= |Encode(f, frame)| && Encode(f, frame)[i] == LengthByte(f, frame, i)
  {
  }

  lemma LengthByteIs(f: Layout, frame: seq<seq<seq<Packet>>>, p: nat, r: nat, j: nat, half: nat)
    requires |frame| == f.coded && (forall q :: 0 <= q < |frame| ==> PlaneOk(f, frame[q])) && p < f.coded
    requires r < f.height
    requires j == p * f.height + r < f.coded * f.height && half < 2
    ensures PlaneOk(f, frame[p])
    ensures LengthByte(f, frame, 2 * j + half)
         == if half == 0 then |CodedRow(frame[p][r])| / 256 else |CodedRow(frame[p][r])| % 256
  {
    assert PlaneOk(f, frame[p]);
    DivModUnique(p, r, f.height);
    assert (2 * j + half) / 2 == j && (2 * j + half) % 2 == half;
  }

  lemma {:induction false} DataSplits(f: Layout, frame: seq<seq<seq<Packet>>>, n: nat)
    requires n <= |frame| && forall p :: 0 <= p < |frame| ==> PlaneOk(f, frame[p])
    ensures FrameData(f, frame) == FrameData(f, frame[..n]) + FrameData(f, frame[n..])
  {
    if n == 0 {
      assert frame[0..] == frame;
    } else {
      var rest := frame[1..];
      DataSplits(f, rest, n - 1);
      FirstPlane(f, frame, rest);
      FirstPlane(f, frame[..n], rest[..n - 1]);
      assert rest[n - 1..] == frame[n..];
      Regrouped(Data(frame[0]), FrameData(f, rest[..n - 1]), FrameData(f, rest[n - 1..]), FrameData(f, rest));
    }
  }

  lemma FirstPlane(f: Layout, frame: seq<seq<seq<Packet>>>, rest: seq<seq<seq<Packet>>>)
    requires frame != [] && rest == frame[1..] && forall p :: 0 <= p < |frame| ==> PlaneOk(f, frame[p])
    ensures PlaneOk(f, frame[0]) && FrameData(f, frame) == Data(frame[0]) + FrameData(f, rest)
  {
  }

  function Packed(picture: seq<seq<seq<Byte>>>): (r: seq<seq<seq<Packet>>>)
    ensures |r| == |picture|
  {
    seq(|picture|, p requires 0 <= p < |picture| => PackedPlane(picture[p]))
  }

  function PackedPlane(plane: seq<seq<Byte>>): (r: seq<seq<Packet>>)
    ensures |r| == |plane| && forall i :: 0 <= i < |r| ==> r[i] == Pack(plane[i])
  {
    seq(|plane|, i requires 0 <= i < |plane| => Pack(plane[i]))
  }

  /** Every picture whose rows fit the buffer and the lengths of the table is decoded from its encoding. */
  lemma PictureRoundTrip(f: Layout, picture: seq<seq<seq<Byte>>>, pic: seq<Byte>)
    requires f.Valid() && |picture| == f.coded && |pic| == f.height * f.linesize
    requires forall p :: 0 <= p < |picture| ==> |picture[p]| == f.height
    requires forall p, r :: 0 <= p < |picture| && 0 <= r < f.height ==>
      f.Fits(|picture[p][r]|) && 2 * |picture[p][r]| < 0x1_0000
    ensures forall p :: 0 <= p < |picture| ==> PlaneOk(f, Packed(picture)[p])
    ensures f.DataStart() <= |Encode(f, Packed(picture))| && Decoded(f, Encode(f, Packed(picture)), pic).ok
    ensures forall p, r :: 0 <= p < f.planes && 0 <= r < f.height ==>
      RowShown(f, Decoded(f, Encode(f, Packed(picture)), pic).pic, p, r, picture[p][r])
  {
    var frame := Packed(picture);
    forall p | 0 <= p < |picture|
      ensures PlaneOk(f, frame[p])
    {
      forall r | 0 <= r < f.height
        ensures Expand(frame[p][r]) == picture[p][r] && |CodedRow(frame[p][r])| < 0x1_0000
      {
        PackMeans(picture[p][r]);
      }
    }
    var buf := Encode(f, frame);
    EncodedIsWellFormed(f, frame);
    DecodingInverts(f, buf, frame[..f.planes], FrameData(f, frame[f.planes..]), pic);
    forall p, r | 0 <= p < f.planes && 0 <= r < f.height
      ensures RowShown(f, Decoded(f, buf, pic).pic, p, r, picture[p][r])
    {
      PackMeans(picture[p][r]);
      assert PlaneShown(f, Decoded(f, buf, pic).pic, p, frame[..f.planes][p]);
      assert frame[p][r] == Pack(picture[p][r]);
    }
  }
}
