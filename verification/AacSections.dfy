// encode_window_bands_info of aaccoder.c: the search for the cheapest codebook of every band, and the
// reading back of the chosen sections from the table of path points.
module AacSections {
  import opened Bits

  const BOOKS: nat := 12

  /** A path cost; the running minimum starts at INFINITY. */
  datatype Cost = Infinity | Finite(value: real)

  predicate Less(a: Cost, b: Cost) {
    match a
    case Infinity => false
    case Finite(x) => b.Infinity? || x < b.value
  }

  function Plus(a: Cost, x: real): Cost {
    match a
    case Infinity => Infinity
    case Finite(y) => Finite(y + x)
  }

  datatype PathPoint = PathPoint(prev: int, cost: real, run: nat)

  /** What the search is given: the zero bands, the cost of coding each band with each book, and the window kind. */
  datatype Bands = Bands(zero: seq<bool>, rd: (nat, nat) -> real, long: bool)

  function RunBits(long: bool): nat {
    if long then 5 else 3
  }

  /** run_value_bits: the bits a run length takes with its escapes, as tabulated. */
  function RunValueBits(long: bool, run: nat): nat {
    if long then (if run <= 30 then 5 else if run <= 62 then 10 else 15)
    else (if run <= 6 then 3 else if run <= 14 then 6 else 9)
  }

  function ChangeCost(long: bool): real {
    RunBits(long) as real + 4.0
  }

  /** One more band takes the run past a length that needs one more escape. */
  predicate Jumps(long: bool, run: nat) {
    RunValueBits(long, run) != RunValueBits(long, run + 1)
  }

  /** The path to book cb after a band that is not zero. */
  function NextPoint(p: PathPoint, cb: nat, minrd: Cost, mincb: nat, rd: real, long: bool): PathPoint {
    var here := p.cost + rd;
    var jump := if Jumps(long, p.run) then RunBits(long) as real else 0.0;
    var get := Plus(minrd, rd + ChangeCost(long));
    if Less(get, Finite(here + jump)) then PathPoint(mincb, get.value, 1)
    else PathPoint(cb, here + jump, p.run + 1)
  }

  type Row = seq<PathPoint>

  /** The first book of least cost, and that cost. */
  ghost predicate IsLeast(row: Row, minrd: Cost, mincb: nat)
    requires |row| == BOOKS
  {
    && mincb < BOOKS && minrd == Finite(row[mincb].cost)
    && (forall cb :: 0 <= cb < BOOKS ==> row[mincb].cost <= row[cb].cost)
    && (forall cb :: 0 <= cb < mincb ==> row[mincb].cost < row[cb].cost)
  }

  /** The least cost to be in any book, before the first coded band not yet known. */
  ghost predicate Front(row: Row, minrd: Cost, mincb: nat) {
    && |row| == BOOKS
    && if minrd.Infinity? then mincb == 0 && forall cb :: 0 <= cb < BOOKS ==> row[cb].cost == 0.0
       else IsLeast(row, minrd, mincb)
  }

  /** A zero band leaves the running minimum as it was; any other makes one anew. */
  ghost predicate MinStep(b: Bands, s: nat, m: (Cost, nat), m': (Cost, nat))
    requires s < |b.zero|
  {
    if b.zero[s] then m' == m else m'.0.Finite?
  }

  function PointAfter(b: Bands, s: nat, p: PathPoint, cb: nat, minrd: Cost, mincb: nat): PathPoint
    requires s < |b.zero|
  {
    if b.zero[s] then PathPoint(cb, p.cost, p.run + 1) else NextPoint(p, cb, minrd, mincb, b.rd(s, cb), b.long)
  }

  ghost predicate RowStep(b: Bands, s: nat, row: Row, minrd: Cost, mincb: nat, row': Row)
    requires s < |b.zero|
  {
    && |row| == |row'| == BOOKS
    && forall cb :: 0 <= cb < BOOKS ==> row'[cb] == PointAfter(b, s, row[cb], cb, minrd, mincb)
  }

  /** One row of path points per band, and the running minimum that was used to reach the next row. */
  datatype Table = Table(rows: seq<Row>, mins: seq<(Cost, nat)>)

  ghost predicate IsTable(b: Bands, t: Table) {
    && 1 <= |t.rows| == |t.mins| <= |b.zero| + 1
    && t.rows[0] == seq(BOOKS, _ => PathPoint(-1, 0.0, 0))
    && t.mins[0].0 == Infinity
    && (forall s :: 0 <= s < |t.rows| ==> Front(t.rows[s], t.mins[s].0, t.mins[s].1) && t.mins[s].1 < BOOKS)
    && (forall s :: 0 <= s < |t.rows| - 1 ==> RowStep(b, s, t.rows[s], t.mins[s].0, t.mins[s].1, t.rows[s + 1]))
    && (forall s :: 0 <= s < |t.rows| - 1 ==> MinStep(b, s, t.mins[s], t.mins[s + 1]))
  }

  /** The bands determine the table. */
  lemma {:induction false} TableUnique(b: Bands, t: Table, u: Table, s: nat)
    requires IsTable(b, t) && IsTable(b, u) && s < |t.rows| && s < |u.rows|
    ensures t.rows[s] == u.rows[s] && t.mins[s] == u.mins[s]
  {
    if s > 0 {
      TableUnique(b, t, u, s - 1);
      RowUnique(b, s - 1, t.rows[s - 1], t.mins[s - 1], t.rows[s], t.mins[s], u.rows[s], u.mins[s]);
    } else {
      assert Front(t.rows[0], t.mins[0].0, t.mins[0].1) && Front(u.rows[0], u.mins[0].0, u.mins[0].1);
    }
  }

  lemma RowUnique(b: Bands, s: nat, row: Row, m: (Cost, nat), row1: Row, m1: (Cost, nat), row2: Row, m2: (Cost, nat))
    requires s < |b.zero| && Front(row, m.0, m.1)
    requires RowStep(b, s, row, m.0, m.1, row1) && MinStep(b, s, m, m1) && Front(row1, m1.0, m1.1)
    requires RowStep(b, s, row, m.0, m.1, row2) && MinStep(b, s, m, m2) && Front(row2, m2.0, m2.1)
    ensures row1 == row2 && m1 == m2
  {
    assert forall cb :: 0 <= cb < BOOKS ==> row1[cb] == row2[cb];
    assert row1 == row2;
  }

  lemma TableGrows(b: Bands, t: Table, row: Row, m: (Cost, nat))
    requires IsTable(b, t) && |t.rows| <= |b.zero| && Front(row, m.0, m.1) && m.1 < BOOKS
    requires var n := |t.rows| - 1;
      RowStep(b, n, t.rows[n], t.mins[n].0, t.mins[n].1, row) && MinStep(b, n, t.mins[n], m)
    ensures IsTable(b, Table(t.rows + [row], t.mins + [m]))
  {
    var n := |t.rows| - 1;
    var rows, mins := t.rows + [row], t.mins + [m];
    assert rows[n] == t.rows[n] && mins[n] == t.mins[n] && rows[n + 1] == row && mins[n + 1] == m;
    forall s | 0 <= s <= n
      ensures Front(rows[s], mins[s].0, mins[s].1) && mins[s].1 < BOOKS
      ensures RowStep(b, s, rows[s], mins[s].0, mins[s].1, rows[s + 1]) && MinStep(b, s, mins[s], mins[s + 1])
    {
      assert rows[s] == t.rows[s] && mins[s] == t.mins[s];
      if s < n {
        RowFacts(b, t, s);
        assert rows[s + 1] == t.rows[s + 1] && mins[s + 1] == t.mins[s + 1];
      }
    }
  }

  /** The first row of the path array. */
  method FillFirst(path: array2<PathPoint>)
    requires path.Length0 > 0 && path.Length1 == BOOKS
    modifies path
    ensures forall k :: 0 <= k < BOOKS ==> path[0, k] == PathPoint(-1, 0.0, 0)
  {
    for cb := 0 to BOOKS
      invariant forall k :: 0 <= k < cb ==> path[0, k] == PathPoint(-1, 0.0, 0)
    {
      path[0, cb] := PathPoint(-1, 0.0, 0);
    }
  }

  /** The search: fills the table band by band.  path is the source's path array. */
  method FillTable(b: Bands, max_sfb: nat, path: array2<PathPoint>) returns (ghost t: Table)
    requires |b.zero| == max_sfb && path.Length0 > max_sfb && path.Length1 == BOOKS
    modifies path
    ensures IsTable(b, t) && |t.rows| == max_sfb + 1
    ensures forall s, cb :: 0 <= s <= max_sfb && 0 <= cb < BOOKS ==> path[s, cb] == t.rows[s][cb]
  {
    FillFirst(path);
    var next_minrd, next_mincb := Infinity, 0;
    t := Table([seq(BOOKS, _ => PathPoint(-1, 0.0, 0))], [(next_minrd, next_mincb)]);
    for swb := 0 to max_sfb
      invariant IsTable(b, t) && |t.rows| == swb + 1
      invariant t.mins[swb] == (next_minrd, next_mincb)
      invariant forall s, cb :: 0 <= s <= swb && 0 <= cb < BOOKS ==> path[s, cb] == t.rows[s][cb]
    {
      next_minrd, next_mincb, t := FillBand(b, swb, swb + 1, path, next_minrd, next_mincb, t);
    }
  }

  /** One more row of the table. */
  method FillBand(b: Bands, swb: nat, next: nat, path: array2<PathPoint>, minrd: Cost, mincb: nat, ghost t: Table)
    returns (next_minrd: Cost, next_mincb: nat, ghost t': Table)
    requires swb < |b.zero| && next == swb + 1 < path.Length0 && path.Length1 == BOOKS
    requires IsTable(b, t) && |t.rows| == next && t.mins[swb] == (minrd, mincb)
    requires forall s, cb :: 0 <= s < next && 0 <= cb < BOOKS ==> path[s, cb] == t.rows[s][cb]
    modifies path
    ensures IsTable(b, t') && |t'.rows| == next + 1 && t'.mins[next] == (next_minrd, next_mincb)
    ensures forall s, cb :: 0 <= s <= next && 0 <= cb < BOOKS ==> path[s, cb] == t'.rows[s][cb]
  {
    ghost var row';
    next_minrd, next_mincb, row' := FillNext(b, swb, next, path, minrd, mincb, t.rows[swb]);
    TableGrows(b, t, row', (next_minrd, next_mincb));
    t' := Table(t.rows + [row'], t.mins + [(next_minrd, next_mincb)]);
  }

  method FillNext(b: Bands, swb: nat, next: nat, path: array2<PathPoint>, minrd: Cost, mincb: nat, ghost row: Row)
    returns (next_minrd: Cost, next_mincb: nat, ghost row': Row)
    requires swb < |b.zero| && next == swb + 1 < path.Length0 && path.Length1 == BOOKS && mincb < BOOKS
    requires Front(row, minrd, mincb) && forall cb :: 0 <= cb < BOOKS ==> path[swb, cb] == row[cb]
    modifies path
    ensures forall s, cb :: 0 <= s < path.Length0 && s != next && 0 <= cb < BOOKS ==> path[s, cb] == old(path[s, cb])
    ensures RowStep(b, swb, row, minrd, mincb, row') && forall cb :: 0 <= cb < BOOKS ==> path[next, cb] == row'[cb]
    ensures MinStep(b, swb, (minrd, mincb), (next_minrd, next_mincb)) && Front(row', next_minrd, next_mincb)
    ensures next_mincb < BOOKS
  {
    next_minrd, next_mincb := FillRow(b, swb, next, path, minrd, mincb, row);
    row' := seq(BOOKS, cb requires 0 <= cb < BOOKS reads path => path[next, cb]);
  }

  method FillRow(b: Bands, swb: nat, next: nat, path: array2<PathPoint>, minrd: Cost, mincb: nat, ghost row: Row)
    returns (next_minrd: Cost, next_mincb: nat)
    requires swb < |b.zero| && next == swb + 1 < path.Length0 && path.Length1 == BOOKS && mincb < BOOKS
    requires Front(row, minrd, mincb) && forall cb :: 0 <= cb < BOOKS ==> path[swb, cb] == row[cb]
    modifies path
    ensures forall s, cb :: 0 <= s < path.Length0 && s != next && 0 <= cb < BOOKS ==> path[s, cb] == old(path[s, cb])
    ensures forall cb :: 0 <= cb < BOOKS ==> path[next, cb] == PointAfter(b, swb, row[cb], cb, minrd, mincb)
    ensures next_mincb < BOOKS
    ensures b.zero[swb] ==> next_minrd == minrd && next_mincb == mincb
    ensures !b.zero[swb] ==> next_minrd == Finite(path[next, next_mincb].cost)
    ensures !b.zero[swb] ==> forall cb :: 0 <= cb < BOOKS ==> next_minrd.value <= path[next, cb].cost
    ensures !b.zero[swb] ==> forall cb :: 0 <= cb < next_mincb ==> next_minrd.value < path[next, cb].cost
  {
    if b.zero[swb] {
      for cb := 0 to BOOKS
        invariant forall s, k :: 0 <= s < path.Length0 && s != next && 0 <= k < BOOKS ==> path[s, k] == old(path[s, k])
        invariant forall k :: 0 <= k < cb ==> path[next, k] == PathPoint(k, row[k].cost, row[k].run + 1)
      {
        path[next, cb] := PathPoint(cb, path[swb, cb].cost, path[swb, cb].run + 1);
      }
      return minrd, mincb;
    }
    next_minrd, next_mincb := Infinity, 0;
    for cb := 0 to BOOKS
      invariant next_mincb < BOOKS && (cb > 0 ==> next_mincb < cb)
      invariant forall s, k :: 0 <= s < path.Length0 && s != next && 0 <= k < BOOKS ==> path[s, k] == old(path[s, k])
      invariant forall k :: 0 <= k < cb ==> path[next, k] == NextPoint(row[k], k, minrd, mincb, b.rd(swb, k), b.long)
      invariant next_minrd.Infinity? <==> cb == 0
      invariant cb > 0 ==> next_minrd == Finite(path[next, next_mincb].cost)
      invariant forall k :: 0 <= k < cb ==> next_minrd.value <= path[next, k].cost
      invariant cb > 0 ==> forall k :: 0 <= k < next_mincb ==> next_minrd.value < path[next, k].cost
    {
      var p := Reach(path[swb, cb], cb, minrd, mincb, b.rd(swb, cb), b.long);
      path[next, cb] := p;
      if Less(Finite(path[next, cb].cost), next_minrd) {
        next_minrd, next_mincb := Finite(path[next, cb].cost), cb;
      }
    }
  }

  /** Staying in a book against changing to it from the cheapest one. */
  method Reach(here: PathPoint, cb: nat, minrd: Cost, mincb: nat, rd: real, long: bool) returns (p: PathPoint)
    ensures p == NextPoint(here, cb, minrd, mincb, rd, long)
  {
    var cost_stay_here := here.cost + rd;
    var cost_get_here := Plus(minrd, rd + (RunBits(long) as real + 4.0));
    if RunValueBits(long, here.run) != RunValueBits(long, here.run + 1) {
      cost_stay_here := cost_stay_here + RunBits(long) as real;
    }
    if Less(cost_get_here, Finite(cost_stay_here)) {
      p := PathPoint(mincb, cost_get_here.value, 1);
    } else {
      p := PathPoint(cb, cost_stay_here, here.run + 1);
    }
  }

  // ---- What the table's costs mean ----

  /** Cost of a choice of books: the bands that are not zero, and a change wherever neighbours differ. */
  function Total(b: Bands, a: seq<nat>): real
    requires |a| <= |b.zero|
  {
    if a == [] then 0.0
    else
      var n := |a| - 1;
      Total(b, a[..n])
      + (if b.zero[n] then 0.0 else b.rd(n, a[n]))
      + (if n > 0 && a[n] != a[n - 1] then ChangeCost(b.long) else 0.0)
  }

  /** The choice of books that following prev from row s and book cb stands for. */
  function Chosen(t: Table, s: nat, cb: int): seq<nat>
    requires s < |t.rows|
  {
    if s == 0 || cb < 0 || cb >= |t.rows[s]| then [] else Chosen(t, s - 1, t.rows[s][cb].prev) + [cb]
  }

  /** The run costs are the same for every run the table can contain: at most 30 long or 6 short bands. */
  predicate RunsCostTheSame(b: Bands) {
    |b.zero| <= if b.long then 30 else 6
  }

  lemma PrevInRange(b: Bands, t: Table, s: nat, cb: nat)
    requires IsTable(b, t) && 0 < s < |t.rows| && cb < BOOKS
    ensures 0 <= t.rows[s][cb].prev < BOOKS
    ensures 1 <= t.rows[s][cb].run
  {
    assert RowStep(b, s - 1, t.rows[s - 1], t.mins[s - 1].0, t.mins[s - 1].1, t.rows[s]);
  }

  lemma {:induction false} RunsFit(b: Bands, t: Table, s: nat, cb: nat)
    requires IsTable(b, t) && s < |t.rows| && cb < BOOKS
    ensures t.rows[s][cb].run <= s
    ensures 0 < s ==> 1 <= t.rows[s][cb].run
  {
    if s == 0 {
    } else {
      RunsFit(b, t, s - 1, cb);
      assert RowStep(b, s - 1, t.rows[s - 1], t.mins[s - 1].0, t.mins[s - 1].1, t.rows[s]);
    }
  }

  lemma {:induction false} ChosenShape(b: Bands, t: Table, s: nat, cb: nat)
    requires IsTable(b, t) && s < |t.rows| && cb < BOOKS
    ensures |Chosen(t, s, cb)| == s
    ensures forall k :: 0 <= k < s ==> Chosen(t, s, cb)[k] < BOOKS
    ensures s > 0 ==> Chosen(t, s, cb)[s - 1] == cb
  {
    if s == 0 {
    } else {
      PrevInRange(b, t, s, cb);
      ChosenShape(b, t, s - 1, t.rows[s][cb].prev);
    }
  }

  lemma RowFacts(b: Bands, t: Table, s: nat)
    requires IsTable(b, t) && s + 1 < |t.rows|
    ensures |t.rows[s]| == BOOKS && |t.rows[s + 1]| == BOOKS
    ensures Front(t.rows[s], t.mins[s].0, t.mins[s].1) && Front(t.rows[s + 1], t.mins[s + 1].0, t.mins[s + 1].1)
    ensures RowStep(b, s, t.rows[s], t.mins[s].0, t.mins[s].1, t.rows[s + 1]) && MinStep(b, s, t.mins[s], t.mins[s + 1])
  {
  }

  /** Each path point's cost is the cost of the choice it stands for, or more. */
  lemma {:induction false} CostIsAttained(b: Bands, t: Table, s: nat, cb: nat)
    requires IsTable(b, t) && s < |t.rows| && cb < BOOKS
    ensures |Chosen(t, s, cb)| == s && Total(b, Chosen(t, s, cb)) <= t.rows[s][cb].cost
  {
    ChosenShape(b, t, s, cb);
    if s == 0 {
    } else {
      PrevInRange(b, t, s, cb);
      CostIsAttained(b, t, s - 1, t.rows[s][cb].prev);
      AttainedMore(b, t, s, cb, t.rows[s][cb].prev);
    }
  }

  lemma AttainedMore(b: Bands, t: Table, s: nat, cb: nat, p: nat)
    requires IsTable(b, t) && 0 < s < |t.rows| && cb < BOOKS && p == t.rows[s][cb].prev && p < BOOKS
    requires |Chosen(t, s - 1, p)| == s - 1 && Total(b, Chosen(t, s - 1, p)) <= t.rows[s - 1][p].cost
    ensures |Chosen(t, s, cb)| == s && Total(b, Chosen(t, s, cb)) <= t.rows[s][cb].cost
  {
    RowFacts(b, t, s - 1);
    ChosenShape(b, t, s - 1, p);
    AttainedStep(b, s - 1, t.rows[s - 1], t.mins[s - 1], t.rows[s], Chosen(t, s - 1, p), cb);
  }

  lemma AttainedStep(b: Bands, s: nat, row: Row, m: (Cost, nat), row': Row, a: seq<nat>, cb: nat)
    requires |a| == s < |b.zero| && cb < BOOKS && Front(row, m.0, m.1) && RowStep(b, s, row, m.0, m.1, row')
    requires 0 <= row'[cb].prev < BOOKS && (a != [] ==> a[s - 1] == row'[cb].prev)
    requires Total(b, a) <= row[row'[cb].prev].cost
    ensures Total(b, a + [cb]) <= row'[cb].cost
  {
    TotalOfMore(b, a, cb);
    PointCosts(b, s, row[cb], cb, m);
    assert row'[cb] == PointAfter(b, s, row[cb], cb, m.0, m.1);
    assert m.0.Finite? ==> m.0.value == row[m.1].cost;
  }

  /** A point is reached from its own book, or by changing from the cheapest one. */
  lemma PointCosts(b: Bands, s: nat, p: PathPoint, cb: nat, m: (Cost, nat))
    requires s < |b.zero|
    ensures var q := PointAfter(b, s, p, cb, m.0, m.1);
      || (q.prev == cb && q.cost >= p.cost + (if b.zero[s] then 0.0 else b.rd(s, cb)))
      || (!b.zero[s] && m.0.Finite? && q.prev == m.1 && q.cost == m.0.value + b.rd(s, cb) + ChangeCost(b.long))
  {
  }

  lemma TotalOfMore(b: Bands, a: seq<nat>, cb: nat)
    requires |a| < |b.zero|
    ensures Total(b, a + [cb]) == Total(b, a) + (if b.zero[|a|] then 0.0 else b.rd(|a|, cb))
      + (if a != [] && cb != a[|a| - 1] then ChangeCost(b.long) else 0.0)
  {
    assert (a + [cb])[..|a|] == a;
  }

  ghost predicate Choice(a: seq<nat>) {
    forall k :: 0 <= k < |a| ==> a[k] < BOOKS
  }

  /** The least cost of a row, as the running minimum keeps it. */
  function FloorOf(m: (Cost, nat)): real {
    if m.0.Infinity? then 0.0 else m.0.value
  }

  lemma FloorIsLeast(b: Bands, t: Table, s: nat)
    requires IsTable(b, t) && s < |t.rows|
    ensures forall cb :: 0 <= cb < BOOKS ==> FloorOf(t.mins[s]) <= t.rows[s][cb].cost
    ensures exists cb :: 0 <= cb < BOOKS && FloorOf(t.mins[s]) == t.rows[s][cb].cost
  {
    assert Front(t.rows[s], t.mins[s].0, t.mins[s].1);
    assert FloorOf(t.mins[s]) == t.rows[s][t.mins[s].1].cost;
  }

  /** No choice ending in book cb costs less than that book's path, or than changing from the cheapest path:
      zero bands freeze the path costs, so the second case is needed there. */
  lemma {:induction false} CostIsLowerBound(b: Bands, t: Table, a: seq<nat>)
    requires IsTable(b, t) && RunsCostTheSame(b) && |a| < |t.rows| && Choice(a)
    ensures FloorOf(t.mins[|a|]) <= Total(b, a)
    ensures a != [] ==>
      t.rows[|a|][a[|a| - 1]].cost <= Total(b, a) || FloorOf(t.mins[|a|]) + ChangeCost(b.long) <= Total(b, a)
    decreases |a|
  {
    if a == [] {
    } else {
      var s := |a| - 1;
      CostIsLowerBound(b, t, a[..s]);
      RunsFit(b, t, s, a[s]);
      RowFacts(b, t, s);
      LowerBoundStep(b, s, t.rows[s], t.mins[s], t.rows[s + 1], t.mins[s + 1], a);
    }
  }

  lemma LowerBoundStep(b: Bands, s: nat, row: Row, m: (Cost, nat), row': Row, m': (Cost, nat), a: seq<nat>)
    requires RunsCostTheSame(b) && |a| == s + 1 <= |b.zero| && Choice(a)
    requires RowStep(b, s, row, m.0, m.1, row') && MinStep(b, s, m, m')
    requires Front(row, m.0, m.1) && Front(row', m'.0, m'.1)
    requires FloorOf(m) <= Total(b, a[..s])
    requires s == 0 ==> m.0.Infinity?
    requires s > 0 ==> row[a[s - 1]].cost <= Total(b, a[..s]) || FloorOf(m) + ChangeCost(b.long) <= Total(b, a[..s])
    requires row[a[s]].run <= s
    ensures FloorOf(m') <= Total(b, a)
    ensures row'[a[s]].cost <= Total(b, a) || FloorOf(m') + ChangeCost(b.long) <= Total(b, a)
  {
    var cb := a[s];
    assert Total(b, a) == Total(b, a[..s]) + (if b.zero[s] then 0.0 else b.rd(s, cb))
      + (if s > 0 && cb != a[s - 1] then ChangeCost(b.long) else 0.0);
    if !b.zero[s] {
      assert row'[cb] == NextPoint(row[cb], cb, m.0, m.1, b.rd(s, cb), b.long);
      NextPointBounds(row[cb], cb, m, b.rd(s, cb), b.long);
    } else {
      assert row'[cb].cost == row[cb].cost;
    }
  }

  lemma NextPointBounds(p: PathPoint, cb: nat, m: (Cost, nat), rd: real, long: bool)
    requires p.run <= if long then 29 else 5
    ensures NextPoint(p, cb, m.0, m.1, rd, long).cost <= p.cost + rd
    ensures m.0.Finite? ==> NextPoint(p, cb, m.0, m.1, rd, long).cost <= m.0.value + rd + ChangeCost(long)
  {
  }

  // ---- Reading the sections back off the table ----

  datatype Section = Section(cb: nat, run: nat)

  /** The book of every band of a list of sections. */
  function Expand(ss: seq<Section>): seq<nat> {
    if ss == [] then [] else Repeat(ss[0].cb, ss[0].run) + Expand(ss[1..])
  }

  /** The sections held by the first n entries of the two stacks, last pushed first. */
  function Unstack(cbs: seq<nat>, runs: seq<nat>, n: nat): (r: seq<Section>)
    requires n <= |cbs| && n <= |runs|
    ensures |r| == n
  {
    if n == 0 then [] else [Section(cbs[n - 1], runs[n - 1])] + Unstack(cbs, runs, n - 1)
  }

  ghost predicate Proper(ss: seq<Section>) {
    forall k :: 0 <= k < |ss| ==> ss[k].cb < BOOKS && 1 <= ss[k].run
  }

  /** Neighbouring sections have different books. */
  ghost predicate NoRepeat(ss: seq<Section>) {
    forall k :: 0 <= k < |ss| - 1 ==> ss[k].cb != ss[k + 1].cb
  }

  /** A run never begins by changing from its own book: staying would have been cheaper. */
  lemma EnteredFromOther(b: Bands, t: Table, s: nat, cb: nat)
    requires IsTable(b, t) && 1 < s < |t.rows| && cb < BOOKS && t.rows[s][cb].run == 1
    ensures t.rows[s][cb].prev != cb
  {
    RunsFit(b, t, s - 1, cb);
    assert RowStep(b, s - 1, t.rows[s - 1], t.mins[s - 1].0, t.mins[s - 1].1, t.rows[s]);
    assert Front(t.rows[s - 1], t.mins[s - 1].0, t.mins[s - 1].1);
  }

  lemma RunGoesOn(b: Bands, t: Table, s: nat, cb: nat)
    requires IsTable(b, t) && 0 < s < |t.rows| && cb < BOOKS && t.rows[s][cb].run > 1
    ensures s > 1 && t.rows[s][cb].prev == cb && t.rows[s - 1][cb].run == t.rows[s][cb].run - 1
  {
    assert RowStep(b, s - 1, t.rows[s - 1], t.mins[s - 1].0, t.mins[s - 1].1, t.rows[s]);
    RunsFit(b, t, s, cb);
  }

  /** Following a run back to row k, the choice stays in book cb. */
  lemma {:induction false} RunFollowed(b: Bands, t: Table, s: nat, cb: nat, k: nat)
    requires IsTable(b, t) && k <= s < |t.rows| && cb < BOOKS && s - k < t.rows[s][cb].run
    ensures 0 < k && t.rows[k][cb].run == t.rows[s][cb].run - (s - k)
    ensures Chosen(t, s, cb) == Chosen(t, k, cb) + Repeat(cb, s - k)
    decreases s - k
  {
    RunsFit(b, t, s, cb);
    if k == s {
      assert Chosen(t, s, cb) == Chosen(t, s, cb) + Repeat(cb, 0);
    } else {
      RunFollowed(b, t, s, cb, k + 1);
      RunGoesOn(b, t, k + 1, cb);
      OneMore(Chosen(t, k, cb), cb, s - k - 1);
    }
  }

  lemma OneMore(before: seq<nat>, cb: nat, n: nat)
    ensures before + [cb] + Repeat(cb, n) == before + Repeat(cb, n + 1)
  {
    assert [cb] + Repeat(cb, n) == Repeat(cb, n + 1);
  }

  /** The last run of a choice: all of one book, reached from the book that its first band's point names. */
  lemma RunOfChosen(b: Bands, t: Table, s: nat, cb: nat)
    requires IsTable(b, t) && 0 < s < |t.rows| && cb < BOOKS
    ensures 1 <= t.rows[s][cb].run <= s && 0 <= t.rows[s - t.rows[s][cb].run + 1][cb].prev < BOOKS
    ensures Chosen(t, s, cb)
         == Chosen(t, s - t.rows[s][cb].run, t.rows[s - t.rows[s][cb].run + 1][cb].prev) + Repeat(cb, t.rows[s][cb].run)
    ensures t.rows[s][cb].run < s ==> t.rows[s - t.rows[s][cb].run + 1][cb].prev != cb
  {
    RunsFit(b, t, s, cb);
    RunBegins(b, t, s, cb, t.rows[s][cb].run, s - t.rows[s][cb].run);
  }

  lemma RunBegins(b: Bands, t: Table, s: nat, cb: nat, run: nat, from: nat)
    requires IsTable(b, t) && 0 < s < |t.rows| && cb < BOOKS && 1 <= run == t.rows[s][cb].run && from == s - run
    ensures 0 <= t.rows[from + 1][cb].prev < BOOKS
    ensures Chosen(t, s, cb) == Chosen(t, from, t.rows[from + 1][cb].prev) + Repeat(cb, run)
    ensures 0 < from ==> t.rows[from + 1][cb].prev != cb
  {
    var first := from + 1;
    RunFollowed(b, t, s, cb, first);
    if 0 < from {
      EnteredFromOther(b, t, first, cb);
    }
    FirstOfRun(b, t, first, cb);
    OneMore(Chosen(t, from, t.rows[first][cb].prev), cb, run - 1);
  }

  lemma FirstOfRun(b: Bands, t: Table, s: nat, cb: nat)
    requires IsTable(b, t) && 0 < s < |t.rows| && cb < BOOKS
    ensures 0 <= t.rows[s][cb].prev < BOOKS && Chosen(t, s, cb) == Chosen(t, s - 1, t.rows[s][cb].prev) + [cb]
  {
    PrevInRange(b, t, s, cb);
  }

  lemma {:induction false} UnstackFrame(cbs: seq<nat>, runs: seq<nat>, cbs': seq<nat>, runs': seq<nat>, n: nat)
    requires n <= |cbs| == |cbs'| && n <= |runs| == |runs'| && cbs[..n] == cbs'[..n] && runs[..n] == runs'[..n]
    ensures Unstack(cbs, runs, n) == Unstack(cbs', runs', n)
  {
    if n == 0 {
    } else {
      assert cbs[n - 1] == cbs[..n][n - 1] && cbs'[n - 1] == cbs'[..n][n - 1];
      assert runs[n - 1] == runs[..n][n - 1] && runs'[n - 1] == runs'[..n][n - 1];
      assert cbs[..n - 1] == cbs[..n][..n - 1] && cbs'[..n - 1] == cbs'[..n][..n - 1];
      assert runs[..n - 1] == runs[..n][..n - 1] && runs'[..n - 1] == runs'[..n][..n - 1];
      UnstackFrame(cbs, runs, cbs', runs', n - 1);
    }
  }

  ghost predicate Holds(path: array2<PathPoint>, t: Table, max_sfb: nat)
    reads path
  {
    && path.Length0 > max_sfb && path.Length1 == BOOKS && |t.rows| == max_sfb + 1
    && (forall s :: 0 <= s <= max_sfb ==> |t.rows[s]| == BOOKS)
    && forall s, cb :: 0 <= s <= max_sfb && 0 <= cb < BOOKS ==> path[s, cb] == t.rows[s][cb]
  }

  method Cheapest(path: array2<PathPoint>, max_sfb: nat) returns (idx: nat)
    requires path.Length0 > max_sfb && path.Length1 == BOOKS
    ensures idx < BOOKS && forall k :: 0 <= k < BOOKS ==> path[max_sfb, idx].cost <= path[max_sfb, k].cost
    ensures forall k :: 0 <= k < idx ==> path[max_sfb, idx].cost < path[max_sfb, k].cost
  {
    idx := 0;
    for cb := 1 to BOOKS
      invariant 0 <= idx < cb && forall k :: 0 <= k < cb ==> path[max_sfb, idx].cost <= path[max_sfb, k].cost
      invariant forall k :: 0 <= k < idx ==> path[max_sfb, idx].cost < path[max_sfb, k].cost
    {
      if path[max_sfb, cb].cost < path[max_sfb, idx].cost {
        idx := cb;
      }
    }
  }

  /** Every point's run leads back to the point of the run before. */
  ghost predicate RunsLeadBack(t: Table) {
    forall s, cb {:trigger RunLeadsBack(t, s, cb)} :: 0 < s < |t.rows| && 0 <= cb < BOOKS ==> RunLeadsBack(t, s, cb)
  }

  ghost predicate RunLeadsBack(t: Table, s: nat, cb: nat)
    requires s < |t.rows|
  {
    && cb < |t.rows[s]| && 1 <= t.rows[s][cb].run <= s
    && cb < |t.rows[s - t.rows[s][cb].run + 1]| && 0 <= t.rows[s - t.rows[s][cb].run + 1][cb].prev < BOOKS
    && Chosen(t, s, cb)
       == Chosen(t, s - t.rows[s][cb].run, t.rows[s - t.rows[s][cb].run + 1][cb].prev) + Repeat(cb, t.rows[s][cb].run)
    && (t.rows[s][cb].run < s ==> t.rows[s - t.rows[s][cb].run + 1][cb].prev != cb)
  }

  lemma TableLeadsBack(b: Bands, t: Table)
    requires IsTable(b, t)
    ensures RunsLeadBack(t)
  {
    forall s, cb | 0 < s < |t.rows| && 0 <= cb < BOOKS ensures RunLeadsBack(t, s, cb) {
      RunOfChosen(b, t, s, cb);
    }
  }

  /** ss covers the end of the choice whose beginning the point (ppos, idx) stands for. */
  ghost predicate Followed(t: Table, goal: seq<nat>, ppos: nat, idx: int, ss: seq<Section>) {
    && ppos < |t.rows| && 0 <= idx < BOOKS && Proper(ss) && NoRepeat(ss)
    && (0 < ppos && ss != [] ==> idx != ss[0].cb)
    && goal == Chosen(t, ppos, idx) + Expand(ss)
  }

  lemma FollowRun(t: Table, goal: seq<nat>, ppos: nat, cb: nat, ss: seq<Section>)
    requires RunsLeadBack(t) && Followed(t, goal, ppos, cb, ss) && 0 < ppos
    ensures RunLeadsBack(t, ppos, cb)
    ensures Followed(t, goal, ppos - t.rows[ppos][cb].run, t.rows[ppos - t.rows[ppos][cb].run + 1][cb].prev,
                     [Section(cb, t.rows[ppos][cb].run)] + ss)
  {
    assert RunLeadsBack(t, ppos, cb);
    var run := t.rows[ppos][cb].run;
    assert ([Section(cb, run)] + ss)[1..] == ss;
    assert Expand([Section(cb, run)] + ss) == Repeat(cb, run) + Expand(ss);
  }

  method Push(stackrun: array<nat>, stackcb: array<nat>, stack_len: nat, run: nat, cb: nat)
    requires stackrun != stackcb && stack_len < stackrun.Length && stack_len < stackcb.Length
    modifies stackrun, stackcb
    ensures Unstack(stackcb[..], stackrun[..], stack_len + 1)
      == [Section(cb, run)] + old(Unstack(stackcb[..], stackrun[..], stack_len))
  {
    ghost var runs, cbs := stackrun[..], stackcb[..];
    stackrun[stack_len] := run;
    stackcb[stack_len] := cb;
    UnstackFrame(cbs, runs, stackcb[..], stackrun[..], stack_len);
  }

  /** Follows the points back from the cheapest last one, pushing a run at a time. */
  method Backtrack(max_sfb: nat, path: array2<PathPoint>, ghost t: Table, stackrun: array<nat>, stackcb: array<nat>)
    returns (stack_len: nat, best: nat)
    requires RunsLeadBack(t) && Holds(path, t, max_sfb)
    requires stackrun != stackcb && stackrun.Length >= max_sfb && stackcb.Length >= max_sfb
    modifies stackrun, stackcb
    ensures stack_len <= max_sfb && best < BOOKS
    ensures forall cb :: 0 <= cb < BOOKS ==> t.rows[max_sfb][best].cost <= t.rows[max_sfb][cb].cost
    ensures forall cb :: 0 <= cb < best ==> t.rows[max_sfb][best].cost < t.rows[max_sfb][cb].cost
    ensures Proper(Unstack(stackcb[..], stackrun[..], stack_len))
    ensures NoRepeat(Unstack(stackcb[..], stackrun[..], stack_len))
    ensures Expand(Unstack(stackcb[..], stackrun[..], stack_len)) == Chosen(t, max_sfb, best)
  {
    best := Cheapest(path, max_sfb);
    assert forall cb :: 0 <= cb < BOOKS ==> path[max_sfb, cb] == t.rows[max_sfb][cb];
    stack_len := FollowBack(max_sfb, path, t, best, stackrun, stackcb);
  }

  method FollowBack(max_sfb: nat, path: array2<PathPoint>, ghost t: Table, best: nat, stackrun: array<nat>,
                    stackcb: array<nat>)
    returns (stack_len: nat)
    requires RunsLeadBack(t) && Holds(path, t, max_sfb) && best < BOOKS
    requires stackrun != stackcb && stackrun.Length >= max_sfb && stackcb.Length >= max_sfb
    modifies stackrun, stackcb
    ensures stack_len <= max_sfb
    ensures Proper(Unstack(stackcb[..], stackrun[..], stack_len))
    ensures NoRepeat(Unstack(stackcb[..], stackrun[..], stack_len))
    ensures Expand(Unstack(stackcb[..], stackrun[..], stack_len)) == Chosen(t, max_sfb, best)
  {
    stack_len := 0;
    var idx: int := best;
    var ppos := max_sfb;
    ghost var goal := Chosen(t, max_sfb, best);
    assert Followed(t, goal, ppos, idx, Unstack(stackcb[..], stackrun[..], 0));
    while ppos > 0
      invariant 0 <= ppos && stack_len + ppos <= max_sfb
      invariant Followed(t, goal, ppos, idx, Unstack(stackcb[..], stackrun[..], stack_len))
    {
      idx, ppos, stack_len := PopRun(max_sfb, path, t, goal, ppos, idx, stackrun, stackcb, stack_len);
    }
  }

  method PopRun(max_sfb: nat, path: array2<PathPoint>, ghost t: Table, ghost goal: seq<nat>, ppos: nat, cb: nat,
      stackrun: array<nat>, stackcb: array<nat>, stack_len: nat) returns (idx: int, ppos': nat, stack_len': nat)
    requires RunsLeadBack(t) && Holds(path, t, max_sfb) && 0 < ppos
    requires stackrun != stackcb && stackrun.Length >= max_sfb && stackcb.Length >= max_sfb
    requires stack_len + ppos <= max_sfb
    requires Followed(t, goal, ppos, cb, Unstack(stackcb[..], stackrun[..], stack_len))
    modifies stackrun, stackcb
    ensures ppos' < ppos && stack_len' == stack_len + 1 && stack_len' + ppos' <= max_sfb
    ensures Followed(t, goal, ppos', idx, Unstack(stackcb[..], stackrun[..], stack_len'))
  {
    FollowRun(t, goal, ppos, cb, Unstack(stackcb[..], stackrun[..], stack_len));
    var run := path[ppos, cb].run;
    Push(stackrun, stackcb, stack_len, run, cb);
    idx := path[ppos - run + 1, cb].prev;
    ppos', stack_len' := ppos - run, stack_len + 1;
  }

  // ---- Writing the sections ----

  /** A run length: escapes of all ones while it does not fit, then the rest. */
  function RunCode(width: nat, run: nat): seq<bool>
    requires 0 < width
    decreases run
  {
    var esc := Pow2(width) - 1;
    if esc >= 1 && run >= esc then Word(esc, width) + RunCode(width, run - esc) else Word(run, width)
  }

  function SectionCode(width: nat, s: Section): seq<bool>
    requires 0 < width
  {
    Word(s.cb, 4) + RunCode(width, s.run)
  }

  function SectionsCode(width: nat, ss: seq<Section>): seq<bool>
    requires 0 < width
  {
    if ss == [] then [] else SectionCode(width, ss[0]) + SectionsCode(width, ss[1..])
  }

  datatype Parsed<T> = Broken | Parsed(value: T, rest: seq<bool>)

  /** section_data of section 4.6.3 of ISO/IEC 14496-3: escaped increments until one that is not all ones. */
  function ParseRun(width: nat, bits: seq<bool>): Parsed<nat>
    requires 0 < width
    decreases |bits|
  {
    if |bits| < width then Broken
    else
      var incr := Value(bits[..width]);
      if incr != Pow2(width) - 1 then Parsed(incr, bits[width..])
      else
        match ParseRun(width, bits[width..])
        case Broken => Broken
        case Parsed(more, rest) => Parsed(incr + more, rest)
  }

  /** Sections until every one of max_sfb bands has its book. */
  function ParseSections(width: nat, bits: seq<bool>, max_sfb: nat): Parsed<seq<nat>>
    requires 0 < width
    decreases max_sfb
  {
    if max_sfb == 0 then Parsed([], bits)
    else if |bits| < 4 then Broken
    else
      match ParseRun(width, bits[4..])
      case Broken => Broken
      case Parsed(run, rest) =>
        if run == 0 || run > max_sfb then Broken
        else
          match ParseSections(width, rest, max_sfb - run)
          case Broken => Broken
          case Parsed(more, rest') => Parsed(Repeat(Value(bits[..4]), run) + more, rest')
  }

  lemma HeadWord(v: nat, width: nat, tail: seq<bool>)
    requires v < Pow2(width)
    ensures var bits := Word(v, width) + tail;
      bits[..width] == Word(v, width) && bits[width..] == tail && Value(bits[..width]) == v
  {
    ValueOfWord(v, width);
  }

  lemma EscapeParsed(width: nat, tail: seq<bool>, esc: nat, more: nat, rest: seq<bool>)
    requires 0 < width && 1 <= esc == Pow2(width) - 1 && ParseRun(width, tail) == Parsed(more, rest)
    ensures ParseRun(width, Word(esc, width) + tail) == Parsed(esc + more, rest)
  {
    HeadWord(esc, width, tail);
  }

  lemma LastParsed(width: nat, run: nat, rest: seq<bool>)
    requires 0 < width && run < Pow2(width) - 1
    ensures RunCode(width, run) == Word(run, width) && ParseRun(width, Word(run, width) + rest) == Parsed(run, rest)
  {
    HeadWord(run, width, rest);
  }

  lemma EscapedCode(width: nat, run: nat, rest: seq<bool>, esc: nat)
    requires 0 < width && 1 <= esc == Pow2(width) - 1 && run >= esc
    ensures RunCode(width, run) + rest == Word(esc, width) + (RunCode(width, run - esc) + rest)
  {
  }

  lemma {:induction false} RunParsed(width: nat, run: nat, rest: seq<bool>, esc: nat)
    requires 0 < width && 1 <= esc == Pow2(width) - 1
    ensures ParseRun(width, RunCode(width, run) + rest) == Parsed(run, rest)
    decreases run
  {
    if run >= esc {
      RunParsed(width, run - esc, rest, esc);
      EscapedCode(width, run, rest, esc);
      EscapeParsed(width, RunCode(width, run - esc) + rest, esc, run - esc, rest);
    } else {
      LastParsed(width, run, rest);
    }
  }

  /** Parsing the written sections returns the book of every band, and stops right after them. */
  lemma {:induction false} SectionsParsed(width: nat, ss: seq<Section>, rest: seq<bool>, esc: nat)
    requires 0 < width && 1 <= esc == Pow2(width) - 1 && Proper(ss)
    ensures ParseSections(width, SectionsCode(width, ss) + rest, |Expand(ss)|) == Parsed(Expand(ss), rest)
    decreases |ss|
  {
    if ss == [] {
      assert SectionsCode(width, ss) + rest == rest;
    } else {
      SectionsParsed(width, ss[1..], rest, esc);
      OneMoreParsed(width, ss, rest, SectionsCode(width, ss[1..]) + rest, Expand(ss[1..]), esc);
    }
  }

  lemma OneMoreParsed(width: nat, ss: seq<Section>, rest: seq<bool>, tail: seq<bool>, books: seq<nat>, esc: nat)
    requires 0 < width && 1 <= esc == Pow2(width) - 1 && ss != [] && ss[0].cb < BOOKS && 1 <= ss[0].run
    requires tail == SectionsCode(width, ss[1..]) + rest && books == Expand(ss[1..])
    requires ParseSections(width, tail, |books|) == Parsed(books, rest)
    ensures ParseSections(width, SectionsCode(width, ss) + rest, |Expand(ss)|) == Parsed(Expand(ss), rest)
  {
    CodeOfFirst(width, ss, rest);
    ExpandFirst(ss);
    FirstParsed(width, ss[0], SectionsCode(width, ss) + rest, |Expand(ss)|, tail, books, rest, esc);
  }

  lemma FirstParsed(width: nat, s: Section, code: seq<bool>, bands: nat, tail: seq<bool>, books: seq<nat>,
                    rest: seq<bool>, esc: nat)
    requires 0 < width && 1 <= esc == Pow2(width) - 1 && s.cb < 16 && 1 <= s.run && bands == s.run + |books|
    requires code == Word(s.cb, 4) + (RunCode(width, s.run) + tail)
    requires ParseSections(width, tail, |books|) == Parsed(books, rest)
    ensures ParseSections(width, code, bands) == Parsed(Repeat(s.cb, s.run) + books, rest)
  {
    RunParsed(width, s.run, tail, esc);
    SectionParsed(width, s, RunCode(width, s.run) + tail, tail, books, rest);
  }

  lemma ExpandFirst(ss: seq<Section>)
    requires ss != []
    ensures Expand(ss) == Repeat(ss[0].cb, ss[0].run) + Expand(ss[1..]) && |Expand(ss)| == ss[0].run + |Expand(ss[1..])|
  {
  }

  lemma CodeOfFirst(width: nat, ss: seq<Section>, rest: seq<bool>)
    requires 0 < width && ss != []
    ensures SectionsCode(width, ss) + rest
         == Word(ss[0].cb, 4) + (RunCode(width, ss[0].run) + (SectionsCode(width, ss[1..]) + rest))
  {
  }

  lemma SectionParsed(width: nat, s: Section, body: seq<bool>, tail: seq<bool>, books: seq<nat>, rest: seq<bool>)
    requires 0 < width && s.cb < 16 && 1 <= s.run
    requires ParseRun(width, body) == Parsed(s.run, tail) && ParseSections(width, tail, |books|) == Parsed(books, rest)
    ensures ParseSections(width, Word(s.cb, 4) + body, s.run + |books|) == Parsed(Repeat(s.cb, s.run) + books, rest)
  {
    HeadNibble(s.cb, body);
  }

  lemma HeadNibble(cb: nat, tail: seq<bool>)
    requires cb < 16
    ensures var bits := Word(cb, 4) + tail; bits[4..] == tail && Value(bits[..4]) == cb
  {
    assert Pow2(4) == 16;
    HeadWord(cb, 4, tail);
  }

  /** The run length as the writer puts it out. */
  method PutRun(width: nat, run: nat) returns (pb: seq<bool>)
    requires 0 < width
    ensures pb == RunCode(width, run)
  {
    pb := [];
    var run_esc := Pow2(width) - 1;
    var count := run;
    assert run_esc >= 1 by { assert Pow2(width) == 2 * Pow2(width - 1); }
    while count >= run_esc
      invariant 0 <= count && pb + RunCode(width, count) == RunCode(width, run)
    {
      pb := pb + Word(run_esc, width);
      count := count - run_esc;
    }
    pb := pb + Word(count, width);
  }

  /** Marks count bands from start on as coded with book cb. */
  method MarkBands(cb: nat, start: nat, count: nat, band_type: array<nat>, zeroes: array<bool>)
    requires start + count <= band_type.Length == zeroes.Length
    modifies band_type, zeroes
    ensures band_type[..] == old(band_type[..start]) + Repeat(cb, count) + old(band_type[start + count..])
    ensures forall k :: 0 <= k < zeroes.Length ==>
      zeroes[k] == if start <= k < start + count then cb == 0 else old(zeroes[k])
  {
    var j := 0;
    while j < count
      invariant 0 <= j <= count
      invariant forall k :: 0 <= k < band_type.Length ==>
        band_type[k] == if start <= k < start + j then cb else old(band_type[k])
      invariant forall k :: 0 <= k < zeroes.Length ==>
        zeroes[k] == if start <= k < start + j then cb == 0 else old(zeroes[k])
    {
      zeroes[start + j] := cb == 0;
      band_type[start + j] := cb;
      j := j + 1;
    }
  }

  lemma {:induction false} ExpandAppend(ss: seq<Section>, s: Section)
    ensures Expand(ss + [s]) == Expand(ss) + Repeat(s.cb, s.run)
    ensures forall width: nat :: 0 < width ==>
      SectionsCode(width, ss + [s]) == SectionsCode(width, ss) + SectionCode(width, s)
    decreases |ss|
  {
    if ss == [] {
      assert [s][1..] == [];
    } else {
      assert (ss + [s])[1..] == ss[1..] + [s];
      ExpandAppend(ss[1..], s);
    }
  }

  lemma {:induction false} UnstackAt(cbs: seq<nat>, runs: seq<nat>, n: nat, k: nat)
    requires n <= |cbs| && n <= |runs| && k < n
    ensures Unstack(cbs, runs, n)[k] == Section(cbs[n - 1 - k], runs[n - 1 - k])
  {
    if k == 0 {
    } else {
      UnstackAt(cbs, runs, n - 1, k - 1);
    }
  }

  /** Pops the stacks, writing each section's bits and marking its bands. */
  method WriteSections(stackrun: array<nat>, stackcb: array<nat>, stack_len: nat, width: nat, base: nat, max_sfb: nat,
      band_type: array<nat>, zeroes: array<bool>) returns (pb: seq<bool>)
    requires 0 < width && stack_len <= stackrun.Length && stack_len <= stackcb.Length
    requires |Expand(Unstack(stackcb[..], stackrun[..], stack_len))| == max_sfb
    requires base + max_sfb <= band_type.Length == zeroes.Length
    requires band_type != stackrun && band_type != stackcb
    modifies band_type, zeroes
    ensures pb == SectionsCode(width, old(Unstack(stackcb[..], stackrun[..], stack_len)))
    ensures Marked(old(band_type[..]), band_type[..], base, old(Expand(Unstack(stackcb[..], stackrun[..], stack_len))))
    ensures ZeroesMarked(old(zeroes[..]), zeroes[..], base, old(Expand(Unstack(stackcb[..], stackrun[..], stack_len))))
  {
    ghost var ss := Unstack(stackcb[..], stackrun[..], stack_len);
    ghost var types0, zeroes0 := band_type[..], zeroes[..];
    pb := [];
    var start := 0;
    var i := stack_len;
    while i > 0
      invariant 0 <= i <= stack_len && stackrun[..] == old(stackrun[..]) && stackcb[..] == old(stackcb[..])
      invariant start == |Expand(ss[..stack_len - i])| <= max_sfb
      invariant pb == SectionsCode(width, ss[..stack_len - i])
      invariant Marked(types0, band_type[..], base, Expand(ss[..stack_len - i]))
      invariant ZeroesMarked(zeroes0, zeroes[..], base, Expand(ss[..stack_len - i]))
    {
      i := i - 1;
      ghost var done := ss[..stack_len - i - 1];
      var s := Section(stackcb[i], stackrun[i]);
      UnstackAt(stackcb[..], stackrun[..], stack_len, stack_len - i - 1);
      assert ss[..stack_len - i] == done + [s];
      ExpandAppend(done, s);
      ExpandFits(ss, stack_len - i);
      var code := WriteOne(s, width, base, start, band_type, zeroes, types0, zeroes0, Expand(done));
      pb := pb + code;
      start := start + s.run;
    }
    assert ss[..stack_len] == ss;
  }

  method WriteOne(s: Section, width: nat, base: nat, start: nat, band_type: array<nat>, zeroes: array<bool>,
      ghost types0: seq<nat>, ghost zeroes0: seq<bool>, ghost books: seq<nat>) returns (code: seq<bool>)
    requires 0 < width && start == |books| && base + start + s.run <= band_type.Length == zeroes.Length
    requires Marked(types0, band_type[..], base, books) && ZeroesMarked(zeroes0, zeroes[..], base, books)
    modifies band_type, zeroes
    ensures code == SectionCode(width, s)
    ensures Marked(types0, band_type[..], base, books + Repeat(s.cb, s.run))
    ensures ZeroesMarked(zeroes0, zeroes[..], base, books + Repeat(s.cb, s.run))
  {
    ghost var types1, zeroes1 := band_type[..], zeroes[..];
    var run := PutRun(width, s.run);
    code := Word(s.cb, 4) + run;
    MarkBands(s.cb, base + start, s.run, band_type, zeroes);
    MarkedMore(types0, types1, band_type[..], base, books, s.cb, s.run);
    ZeroesMarkedMore(zeroes0, zeroes1, zeroes[..], base, books, s.cb, s.run);
  }

  ghost predicate Marked(before: seq<nat>, after: seq<nat>, base: nat, books: seq<nat>) {
    && base + |books| <= |before| == |after|
    && after == before[..base] + books + before[base + |books|..]
  }

  ghost predicate ZeroesMarked(before: seq<bool>, after: seq<bool>, base: nat, books: seq<nat>) {
    && base + |books| <= |before| == |after|
    && forall k :: 0 <= k < |before| ==>
         after[k] == if base <= k < base + |books| then books[k - base] == 0 else before[k]
  }

  lemma MarkedMore(t0: seq<nat>, t1: seq<nat>, t2: seq<nat>, base: nat, books: seq<nat>, cb: nat, run: nat)
    requires Marked(t0, t1, base, books) && base + |books| + run <= |t1|
    requires t2 == t1[..base + |books|] + Repeat(cb, run) + t1[base + |books| + run..]
    ensures Marked(t0, t2, base, books + Repeat(cb, run))
  {
  }

  lemma ZeroesMarkedMore(z0: seq<bool>, z1: seq<bool>, z2: seq<bool>, base: nat, books: seq<nat>, cb: nat, run: nat)
    requires ZeroesMarked(z0, z1, base, books) && base + |books| + run <= |z1| == |z2|
    requires forall k :: 0 <= k < |z1| ==>
      z2[k] == if base + |books| <= k < base + |books| + run then cb == 0 else z1[k]
    ensures ZeroesMarked(z0, z2, base, books + Repeat(cb, run))
  {
  }

  lemma {:induction false} ExpandFits(ss: seq<Section>, n: nat)
    requires n <= |ss|
    ensures |Expand(ss[..n])| <= |Expand(ss)|
    decreases |ss| - n
  {
    if n == |ss| {
      assert ss[..n] == ss;
    } else {
      assert ss[..n + 1] == ss[..n] + [ss[n]];
      ExpandAppend(ss[..n], ss[n]);
      ExpandFits(ss, n + 1);
    }
  }
}
