// How far from the cheapest the assignment found by encode_window_bands_info of aaccoder.c can be: for any number of
// bands it costs at most a few escapes more, once written.
module AacBandBound {
  import opened Bits
  import opened AacSections
  import opened AacBandCosts

  /** The longest run without an escape. */
  function Most(long: bool): nat {
    if long then 30 else 6
  }

  function Spared(long: bool, k: nat): nat {
    if long then 30 * k else 6 * k
  }

  /** How far a run has come towards the next length that takes an escape, by the table of the search. */
  function Progress(long: bool, run: nat): (p: nat)
    ensures p <= Most(long) && p <= run
  {
    if long then (if run <= 30 then run else if 32 <= run <= 62 then run - 32 else 0)
    else (if run <= 6 then run else if 8 <= run <= 14 then run - 8 else 0)
  }

  lemma JumpUsesProgress(long: bool, run: nat)
    ensures Jumps(long, run) ==> Progress(long, run) == Most(long) && Progress(long, run + 1) == 0
    ensures !Jumps(long, run) ==> Progress(long, run + 1) <= Progress(long, run) + 1
    ensures Progress(long, 1) == 1
  {
  }

  // ---- The escapes that following a choice can cost the search ----

  /** So many escapes, and so much progress of the run towards the next one. */
  datatype Count = Count(escapes: nat, progress: nat)

  function OneMore(long: bool, c: Count): Count {
    if c.progress >= Most(long) then Count(c.escapes + 1, 1) else Count(c.escapes, c.progress + 1)
  }

  /** What the path to a book entered after s bands can have come to. */
  function Entered(long: bool, s: nat, c: Count): Count {
    Count(c.escapes, if s < Most(long) then s else Most(long))
  }

  /** The worst that can happen to the paths to the books of a choice: each may run on from before the choice comes to
      its book, and takes an escape whenever it is too long. */
  function Missed(long: bool, a: seq<nat>): (c: Count)
    ensures c.progress <= Most(long)
  {
    if a == [] then Count(0, 0)
    else
      var n := |a| - 1;
      if n > 0 && a[n] != a[n - 1] then Entered(long, n + 1, Missed(long, a[..n]))
      else OneMore(long, Missed(long, a[..n]))
  }

  /** One for every change, and one for every 30 or 6 bands, is never exceeded. */
  lemma {:induction false} MissedAtMost(long: bool, a: seq<nat>)
    ensures Spared(long, Missed(long, a).escapes) + Missed(long, a).progress <= Spared(long, Changes(a)) + |a|
    ensures Missed(long, a).escapes <= Changes(a) + |a| / Most(long)
  {
    if a == [] {
      assert Changes(a) == 0;
    } else {
      MissedAtMost(long, a[..|a| - 1]);
    }
  }

  /** The point of the choice's last book bounds it: with so many escapes more, or with one less. */
  ghost predicate ByItsBook(long: bool, p: PathPoint, total: real, c: Count) {
    || (p.cost <= total + EscapeBits(long, c.escapes) as real && Progress(long, p.run) <= c.progress)
    || p.cost + RunBits(long) as real <= total + EscapeBits(long, c.escapes) as real
  }

  /** The cheapest point and a change to the last book bound it. */
  ghost predicate ByAChange(long: bool, m: (Cost, nat), total: real, s: nat, c: Count) {
    var cost := FloorOf(m) + ChangeCost(long);
    || (cost <= total + EscapeBits(long, c.escapes) as real && (c.progress >= s || c.progress == Most(long)))
    || cost + RunBits(long) as real <= total + EscapeBits(long, c.escapes) as real
  }

  /** Before the first coded band, where all points cost nothing. */
  ghost predicate AllFree(long: bool, row: Row, total: real, s: nat, c: Count)
    requires |row| == BOOKS
  {
    && total >= 0.0 && (total >= ChangeCost(long) || c.escapes >= 1 || c.progress >= s)
    && forall cb :: 0 <= cb < BOOKS ==> row[cb].cost == 0.0 && row[cb].run == s
  }

  /** A choice of s bands, against a row of points: with its count of escapes more it costs at least what the row
      knows. */
  ghost predicate Tracks(long: bool, row: Row, m: (Cost, nat), total: real, s: nat, last: int, c: Count) {
    && |row| == BOOKS && c.progress <= Most(long)
    && if m.0.Infinity? then AllFree(long, row, total, s, c)
       else
         && FloorOf(m) <= total + EscapeBits(long, c.escapes) as real && 0 <= last < BOOKS
         && (ByItsBook(long, row[last], total, c) || ByAChange(long, m, total, s, c))
  }

  /** Staying in a book costs an escape only if the run was at its longest, and changing is never dearer. */
  lemma NextPointCosts(p: PathPoint, cb: nat, m: (Cost, nat), rd: real, long: bool)
    ensures var q := NextPoint(p, cb, m.0, m.1, rd, long);
      && q.cost <= p.cost + rd + (if Jumps(long, p.run) then RunBits(long) as real else 0.0)
      && (Jumps(long, p.run) ==> Progress(long, p.run) == Most(long) && Progress(long, q.run) <= 1)
      && (!Jumps(long, p.run) ==> Progress(long, q.run) <= Progress(long, p.run) + 1)
      && (m.0.Finite? ==> q.cost <= m.0.value + rd + ChangeCost(long))
      && (m.0.Infinity? ==> q.run == p.run + 1 && (Jumps(long, p.run) ==> Progress(long, q.run) == 0))
  {
    JumpUsesProgress(long, p.run);
  }

  /** A book that bounds the choice still does after one more band in it. */
  lemma StayBounds(long: bool, p: PathPoint, q: PathPoint, rd: real, total: real, c: Count)
    requires ByItsBook(long, p, total, c) && c.progress <= Most(long)
    requires q.cost <= p.cost + rd + (if Jumps(long, p.run) then RunBits(long) as real else 0.0)
    requires Jumps(long, p.run) ==> Progress(long, p.run) == Most(long) && Progress(long, q.run) <= 1
    requires !Jumps(long, p.run) ==> Progress(long, q.run) <= Progress(long, p.run) + 1
    ensures ByItsBook(long, q, total + rd, OneMore(long, c))
  {
  }

  /** The cost of a change bounds it by the book itself, after one more band in it. */
  lemma ChangedBounds(long: bool, m: (Cost, nat), q: PathPoint, rd: real, total: real, s: nat, c: Count)
    requires ByAChange(long, m, total, s, c) && c.progress <= Most(long)
    requires q.cost <= FloorOf(m) + rd + ChangeCost(long) && q.run <= s + 1
    ensures ByItsBook(long, q, total + rd, OneMore(long, c))
  {
  }

  lemma FreeBounds(long: bool, row: Row, q: PathPoint, rd: real, total: real, s: nat, c: Count)
    requires |row| == BOOKS && AllFree(long, row, total, s, c) && c.progress <= Most(long)
    requires q.run == s + 1 && q.cost <= rd + (if Jumps(long, s) then RunBits(long) as real else 0.0)
    requires Jumps(long, s) ==> Progress(long, s + 1) == 0
    ensures ByItsBook(long, q, total + rd, OneMore(long, c))
    ensures ByItsBook(long, q, total + rd + ChangeCost(long), Entered(long, s + 1, c))
  {
    JumpUsesProgress(long, s);
  }

  lemma TracksByBook(long: bool, row: Row, m: (Cost, nat), total: real, s: nat, cb: nat, c: Count)
    requires cb < BOOKS && Front(row, m.0, m.1) && m.0.Finite? && ByItsBook(long, row[cb], total, c)
    requires c.progress <= Most(long)
    ensures Tracks(long, row, m, total, s, cb, c)
  {
  }

  /** What one band adds to the count of a choice, and to its cost. */
  function Counted(long: bool, turn: bool, s: nat, c: Count): Count {
    if turn then Entered(long, s + 1, c) else OneMore(long, c)
  }

  function TurnCost(long: bool, turn: bool): real {
    if turn then ChangeCost(long) else 0.0
  }

  lemma ZeroStep(b: Bands, s: nat, row: Row, m: (Cost, nat), row': Row, total: real, last: int, cb: nat, c: Count)
    requires s < |b.zero| && b.zero[s] && cb < BOOKS && (s == 0 ==> m.0.Infinity?)
    requires RowStep(b, s, row, m.0, m.1, row') && Tracks(b.long, row, m, total, s, last, c)
    ensures var turn := s > 0 && cb != last;
      Tracks(b.long, row', m, total + TurnCost(b.long, turn), s + 1, cb, Counted(b.long, turn, s, c))
  {
    assert row'[cb] == PathPoint(cb, row[cb].cost, row[cb].run + 1);
    JumpUsesProgress(b.long, row[cb].run);
  }

  lemma CodedStep(b: Bands, s: nat, row: Row, m: (Cost, nat), row': Row, m': (Cost, nat), total: real, last: int,
                  cb: nat,
                  c: Count)
    requires s < |b.zero| && !b.zero[s] && cb < BOOKS && (s == 0 ==> m.0.Infinity?)
    requires RowStep(b, s, row, m.0, m.1, row') && MinStep(b, s, m, m') && Front(row', m'.0, m'.1)
    requires row'[cb].run <= s + 1
    requires Tracks(b.long, row, m, total, s, last, c)
    ensures var turn := s > 0 && cb != last;
      Tracks(b.long, row', m', total + b.rd(s, cb) + TurnCost(b.long, turn), s + 1, cb, Counted(b.long, turn, s, c))
  {
    var rd, turn := b.rd(s, cb), s > 0 && cb != last;
    NextPointCosts(row[cb], cb, m, rd, b.long);
    assert row'[cb] == NextPoint(row[cb], cb, m.0, m.1, rd, b.long);
    PointStep(b.long, row, m, row'[cb], rd, total, s, last, cb, c);
    TracksByBook(b.long, row', m', total + rd + TurnCost(b.long, turn), s + 1, cb, Counted(b.long, turn, s, c));
  }

  lemma PointStep(long: bool, row: Row, m: (Cost, nat), q: PathPoint, rd: real, total: real, s: nat, last: int, cb: nat,
                  c: Count)
    requires cb < BOOKS && (s == 0 ==> m.0.Infinity?) && Tracks(long, row, m, total, s, last, c) && q.run <= s + 1
    requires q.cost <= row[cb].cost + rd + (if Jumps(long, row[cb].run) then RunBits(long) as real else 0.0)
    requires Jumps(long, row[cb].run) ==> Progress(long, row[cb].run) == Most(long) && Progress(long, q.run) <= 1
    requires !Jumps(long, row[cb].run) ==> Progress(long, q.run) <= Progress(long, row[cb].run) + 1
    requires m.0.Finite? ==> q.cost <= m.0.value + rd + ChangeCost(long)
    requires m.0.Infinity? ==> q.run == row[cb].run + 1 && (Jumps(long, row[cb].run) ==> Progress(long, q.run) == 0)
    ensures var turn := s > 0 && cb != last;
      ByItsBook(long, q, total + rd + TurnCost(long, turn), Counted(long, turn, s, c))
  {
    if m.0.Infinity? {
      FreeBounds(long, row, q, rd, total, s, c);
    } else if cb != last {
      assert FloorOf(m) <= total + EscapeBits(long, c.escapes) as real;
    } else if ByItsBook(long, row[cb], total, c) {
      StayBounds(long, row[cb], q, rd, total, c);
    } else {
      ChangedBounds(long, m, q, rd, total, s, c);
    }
  }

  function Last(a: seq<nat>): int {
    if a == [] then -1 else a[|a| - 1]
  }

  lemma OneMoreBand(b: Bands, a: seq<nat>)
    requires a != [] && |a| <= |b.zero|
    ensures var n := |a| - 1; var turn := n > 0 && a[n] != Last(a[..n]);
      && Total(b, a) == Total(b, a[..n]) + (if b.zero[n] then 0.0 else b.rd(n, a[n])) + TurnCost(b.long, turn)
      && Missed(b.long, a) == Counted(b.long, turn, n, Missed(b.long, a[..n]))
  {
  }

  /** Whatever the choice, the table keeps track of it. */
  lemma {:induction false} Follow(b: Bands, t: Table, a: seq<nat>)
    requires IsTable(b, t) && |a| < |t.rows| && Choice(a)
    ensures Tracks(b.long, t.rows[|a|], t.mins[|a|], Total(b, a), |a|, Last(a), Missed(b.long, a))
    decreases |a|
  {
    if a == [] {
      assert Tracks(b.long, t.rows[0], t.mins[0], 0.0, 0, -1, Count(0, 0));
    } else {
      var n := |a| - 1;
      Follow(b, t, a[..n]);
      OneMoreBand(b, a);
      FollowMore(b, t, n, |a|, Total(b, a[..n]), Last(a[..n]), a[n], Missed(b.long, a[..n]), Total(b, a),
        Missed(b.long, a));
    }
  }

  lemma FollowMore(b: Bands, t: Table, s: nat, next: nat, total: real, last: int, cb: nat, c: Count,
                   total': real, c': Count)
    requires IsTable(b, t) && next == s + 1 < |t.rows| && cb < BOOKS
    requires Tracks(b.long, t.rows[s], t.mins[s], total, s, last, c)
    requires var turn := s > 0 && cb != last;
      && total' == total + (if b.zero[s] then 0.0 else b.rd(s, cb)) + TurnCost(b.long, turn)
      && c' == Counted(b.long, turn, s, c)
    ensures Tracks(b.long, t.rows[next], t.mins[next], total', next, cb, c')
  {
    RowFacts(b, t, s);
    RunsFit(b, t, next, cb);
    RowTracks(b, s, t.rows[s], t.mins[s], t.rows[next], t.mins[next], total, last, cb, c);
  }

  lemma RowTracks(b: Bands, s: nat, row: Row, m: (Cost, nat), row': Row, m': (Cost, nat), total: real, last: int,
                  cb: nat,
                  c: Count)
    requires s < |b.zero| && cb < BOOKS && (s == 0 ==> m.0.Infinity?)
    requires RowStep(b, s, row, m.0, m.1, row') && MinStep(b, s, m, m') && Front(row', m'.0, m'.1)
    requires row'[cb].run <= s + 1
    requires Tracks(b.long, row, m, total, s, last, c)
    ensures var turn := s > 0 && cb != last;
      Tracks(b.long, row', m', total + (if b.zero[s] then 0.0 else b.rd(s, cb)) + TurnCost(b.long, turn), s + 1, cb,
        Counted(b.long, turn, s, c))
  {
    if b.zero[s] {
      ZeroStep(b, s, row, m, row', total, last, cb, c);
    } else {
      CodedStep(b, s, row, m, row', m', total, last, cb, c);
    }
  }

  // ---- The escapes the search has not charged for ----

  /** Runs so short that the search charges for all their escapes, unless bands are zero. */
  ghost predicate AllCharged(b: Bands) {
    |b.zero| < 2 * Escape(b.long) && forall i :: 0 <= i < |b.zero| ==> !b.zero[i]
  }

  ghost function Uncharged(b: Bands): nat {
    if AllCharged(b) then 0 else |b.zero| / Escape(b.long)
  }

  lemma RunCodeGrows(long: bool, run: nat)
    requires 1 <= run && run + 1 < 2 * Escape(long)
    ensures |RunCode(RunBits(long), run + 1)|
         == |RunCode(RunBits(long), run)| + if Jumps(long, run) then RunBits(long) else 0
  {
    LengthOfRun(long, run);
    LengthOfRun(long, run + 1);
  }

  lemma LengthOfRun(long: bool, run: nat)
    requires run < 2 * Escape(long)
    ensures |RunCode(RunBits(long), run)| == if run < Escape(long) then RunBits(long) else 2 * RunBits(long)
  {
    if run < Escape(long) {
      RunIsShort(long, run);
    } else {
      RunIsLong(long, run);
      RunIsShort(long, run - Escape(long));
    }
  }

  /** A last run adds its own bits. */
  lemma {:induction false} BitsOfLastRun(width: nat, x: seq<nat>, cb: nat, run: nat)
    requires 0 < width && 1 <= run && (x == [] || x[|x| - 1] != cb)
    ensures WrittenBits(width, x + Repeat(cb, run)) == WrittenBits(width, x) + 4 + |RunCode(width, run)|
    decreases |x|
  {
    var a := x + Repeat(cb, run);
    if x == [] {
      BitsOfRunAnd(width, cb, run, []);
      assert a == Repeat(cb, run) + [];
    } else {
      var r := FirstRun(x);
      FirstRunIs(a, r);
      assert a[r..] == x[r..] + Repeat(cb, run);
      BitsOfLastRun(width, x[r..], cb, run);
    }
  }

  lemma BandCostMore(b: Bands, x: seq<nat>, cb: nat)
    requires |x| < |b.zero| && !b.zero[|x|]
    ensures BandCost(b, x + [cb]) == BandCost(b, x) + b.rd(|x|, cb)
  {
    assert (x + [cb])[..|x|] == x;
  }

  /** Writing one more band: in a new section, or in the run of the last one. */
  lemma WrittenMore(b: Bands, x: seq<nat>, cb: nat)
    requires |x| < |b.zero| && !b.zero[|x|] && (x == [] || x[|x| - 1] != cb)
    ensures Written(b, x + [cb]) == Written(b, x) + b.rd(|x|, cb) + ChangeCost(b.long)
  {
    BandCostMore(b, x, cb);
    assert [cb] == Repeat(cb, 1);
    BitsOfLastRun(RunBits(b.long), x, cb, 1);
    RunIsShort(b.long, 1);
  }

  /** A choice is written for the cost of its bands and so many bits. */
  ghost predicate WrittenAs(b: Bands, a: seq<nat>, cost: real, bits: nat) {
    |a| <= |b.zero| && BandCost(b, a) == cost && WrittenBits(RunBits(b.long), a) == bits
  }

  lemma WrittenOn(b: Bands, x: seq<nat>, cb: nat, run: nat, more: nat, a: seq<nat>)
    requires 1 <= run && more == run + 1 < 2 * Escape(b.long) && a == x + Repeat(cb, run)
    requires |a| < |b.zero| && !b.zero[|a|] && (x == [] || x[|x| - 1] != cb)
    ensures Written(b, a + [cb])
         == Written(b, a) + b.rd(|a|, cb) + if Jumps(b.long, run) then RunBits(b.long) as real else 0.0
  {
    var bits := WrittenBits(RunBits(b.long), x) + 4;
    BitsOfLastRun(RunBits(b.long), x, cb, run);
    assert WrittenAs(b, a, BandCost(b, a), bits + |RunCode(RunBits(b.long), run)|);
    RunMore(b, x, cb, more, a, bits);
    RunCodeGrows(b.long, run);
  }

  lemma RunMore(b: Bands, x: seq<nat>, cb: nat, more: nat, a: seq<nat>, bits: nat)
    requires 1 < more && a == x + Repeat(cb, more - 1) && bits == WrittenBits(RunBits(b.long), x) + 4
    requires |a| < |b.zero| && !b.zero[|a|] && (x == [] || x[|x| - 1] != cb)
    ensures WrittenAs(b, a + [cb], BandCost(b, a) + b.rd(|a|, cb), bits + |RunCode(RunBits(b.long), more)|)
  {
    BandCostMore(b, a, cb);
    assert a + [cb] == x + Repeat(cb, more);
    BitsOfLastRun(RunBits(b.long), x, cb, more);
  }

  /** The choice of the point is written at no more than the point's cost and that of its first section. */
  ghost predicate WrittenFor(b: Bands, a: seq<nat>, p: PathPoint) {
    |a| <= |b.zero| && Written(b, a) <= p.cost + ChangeCost(b.long)
  }

  /** While all escapes are charged for, this is so for every point. */
  lemma {:induction false} PathIsWritten(b: Bands, t: Table, s: nat, cb: nat)
    requires IsTable(b, t) && AllCharged(b) && 0 < s < |t.rows| && cb < BOOKS
    ensures WrittenFor(b, Chosen(t, s, cb), t.rows[s][cb])
  {
    FirstOfRun(b, t, s, cb);
    RunsFit(b, t, s, cb);
    var prev := t.rows[s][cb].prev;
    if s == 1 {
      FirstPoint(b, t, cb);
    } else if t.rows[s][cb].run == 1 {
      PathIsWritten(b, t, s - 1, prev);
      EnteredFromOther(b, t, s, cb);
      PathEntered(b, t, s, cb, prev);
    } else {
      RunGoesOn(b, t, s, cb);
      PathIsWritten(b, t, s - 1, cb);
      PathStayed(b, t, s, cb);
    }
  }

  lemma FirstPoint(b: Bands, t: Table, cb: nat)
    requires IsTable(b, t) && AllCharged(b) && 1 < |t.rows| && cb < BOOKS
    ensures WrittenFor(b, Chosen(t, 1, cb), t.rows[1][cb])
  {
    FirstOfRun(b, t, 1, cb);
    RowFacts(b, t, 0);
    WrittenMore(b, [], cb);
    assert Chosen(t, 1, cb) == [] + [cb];
    assert t.rows[1][cb] == PointAfter(b, 0, t.rows[0][cb], cb, Infinity, t.mins[0].1);
  }

  lemma PathEntered(b: Bands, t: Table, s: nat, cb: nat, prev: nat)
    requires IsTable(b, t) && AllCharged(b) && 1 < s < |t.rows| && cb < BOOKS && prev == t.rows[s][cb].prev
    requires prev < BOOKS && prev != cb && Chosen(t, s, cb) == Chosen(t, s - 1, prev) + [cb]
    requires WrittenFor(b, Chosen(t, s - 1, prev), t.rows[s - 1][prev])
    ensures WrittenFor(b, Chosen(t, s, cb), t.rows[s][cb])
  {
    RowFacts(b, t, s - 1);
    ChosenShape(b, t, s - 1, prev);
    WrittenMore(b, Chosen(t, s - 1, prev), cb);
    EnteredPoint(b, s - 1, t.rows[s - 1], t.mins[s - 1], t.rows[s], cb);
  }

  lemma PathStayed(b: Bands, t: Table, s: nat, cb: nat)
    requires IsTable(b, t) && AllCharged(b) && 1 < s < |t.rows| && cb < BOOKS && 1 < t.rows[s][cb].run <= s
    requires Chosen(t, s, cb) == Chosen(t, s - 1, cb) + [cb]
    requires WrittenFor(b, Chosen(t, s - 1, cb), t.rows[s - 1][cb])
    ensures WrittenFor(b, Chosen(t, s, cb), t.rows[s][cb])
  {
    RowFacts(b, t, s - 1);
    StayedPoint(b, s - 1, t.rows[s - 1], t.mins[s - 1], t.rows[s], cb);
    var y, run := LastRunOf(b, t, s - 1, cb);
    WrittenOn(b, y, cb, run, run + 1, Chosen(t, s - 1, cb));
  }

  lemma LastRunOf(b: Bands, t: Table, s: nat, cb: nat) returns (y: seq<nat>, run: nat)
    requires IsTable(b, t) && 0 < s < |t.rows| && cb < BOOKS
    ensures 1 <= run == t.rows[s][cb].run <= s && |y| == s - run
    ensures Chosen(t, s, cb) == y + Repeat(cb, run) && (y == [] || y[|y| - 1] != cb)
  {
    run := t.rows[s][cb].run;
    RunsFit(b, t, s, cb);
    var from := s - run;
    RunBegins(b, t, s, cb, run, from);
    y := Chosen(t, from, t.rows[from + 1][cb].prev);
    ChosenShape(b, t, from, t.rows[from + 1][cb].prev);
  }

  lemma EnteredPoint(b: Bands, s: nat, row: Row, m: (Cost, nat), row': Row, cb: nat)
    requires 0 < s < |b.zero| && !b.zero[s] && cb < BOOKS && Front(row, m.0, m.1) && RowStep(b, s, row, m.0, m.1, row')
    requires row'[cb].prev != cb
    ensures 0 <= row'[cb].prev < BOOKS && row'[cb].cost == row[row'[cb].prev].cost + b.rd(s, cb) + ChangeCost(b.long)
  {
    assert row'[cb] == PointAfter(b, s, row[cb], cb, m.0, m.1);
  }

  lemma StayedPoint(b: Bands, s: nat, row: Row, m: (Cost, nat), row': Row, cb: nat)
    requires s < |b.zero| && !b.zero[s] && cb < BOOKS && RowStep(b, s, row, m.0, m.1, row') && row'[cb].run > 1
    ensures row'[cb].run == row[cb].run + 1
    ensures row'[cb].cost
         == row[cb].cost + b.rd(s, cb) + if Jumps(b.long, row[cb].run) then RunBits(b.long) as real else 0.0
  {
    assert row'[cb] == PointAfter(b, s, row[cb], cb, m.0, m.1);
  }

  /** What the search finds is written at its cost and that of one section, and the escapes not charged for. */
  lemma FoundWritten(b: Bands, t: Table, best: nat)
    requires Searched(b, t, best) && b.zero != []
    ensures var n := |b.zero|; var a := Chosen(t, n, best);
      |a| == n && Written(b, a) <= t.rows[n][best].cost + ChangeCost(b.long) + EscapeBits(b.long, Uncharged(b)) as real
  {
    var n := |b.zero|;
    CostIsAttained(b, t, n, best);
    if AllCharged(b) {
      PathIsWritten(b, t, n, best);
      ChosenShape(b, t, n, best);
    } else {
      var e := WrittenIs(b, Chosen(t, n, best));
      Quotient(b.long, e, n);
    }
  }

  lemma Quotient(long: bool, e: nat, n: nat)
    requires EscapedBands(long, e) <= n
    ensures EscapeBits(long, e) <= EscapeBits(long, n / Escape(long))
  {
    if long {
      assert e <= n / 31;
    } else {
      assert e <= n / 7;
    }
  }

  // ---- The bound ----

  /** The escapes by which what the search finds can be dearer than another choice. */
  ghost function Slack(b: Bands, other: seq<nat>): nat {
    Missed(b.long, other).escapes + Uncharged(b)
  }

  /** For any number of bands and any costs, what the search finds, once written, takes at most so many escapes more
      than any other choice, and even than that choice without its own escapes. */
  lemma NeverFar(b: Bands, t: Table, best: nat, other: seq<nat>)
    requires Searched(b, t, best) && |other| == |b.zero| && Choice(other)
    ensures var a := Chosen(t, |b.zero|, best);
      && |a| == |b.zero|
      && Written(b, a) <= Written(b, other) + EscapeBits(b.long, Slack(b, other)) as real
      && (other != [] ==>
            Written(b, a) <= Total(b, other) + ChangeCost(b.long) + EscapeBits(b.long, Slack(b, other)) as real)
  {
    var n := |b.zero|;
    CostIsAttained(b, t, n, best);
    if n == 0 {
      assert Chosen(t, n, best) == other;
    } else {
      FoundWritten(b, t, best);
      FloorIsLeast(b, t, n);
      Follow(b, t, other);
      var _ := WrittenIs(b, other);
    }
  }

  /** The bound in numbers of bands and changes. */
  lemma SlackAtMost(b: Bands, other: seq<nat>)
    requires |other| == |b.zero|
    ensures Slack(b, other) <= Changes(other) + |other| / Most(b.long) + |other| / Escape(b.long)
  {
    MissedAtMost(b.long, other);
  }
}
