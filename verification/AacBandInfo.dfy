// What encode_window_bands_info of aaccoder.c achieves: the bits it writes, and exactly for how many bands its choice
// of codebooks is the best one.
module AacBandInfo {
  import opened Bits
  import opened AacSections
  import opened AacBandCosts
  import AacBandBound

  /** a costs at most some escapes more than the other choice. */
  ghost predicate NotFarFrom(b: Bands, a: seq<nat>, other: seq<nat>)
    requires |a| <= |b.zero| && |other| <= |b.zero|
  {
    Written(b, a) <= Written(b, other) + EscapeBits(b.long, AacBandBound.Slack(b, other)) as real
  }

  method EncodeWindowBandsInfo(b: Bands, max_sfb: nat, base: nat, band_type: array<nat>, zeroes: array<bool>)
    returns (pb: seq<bool>, ghost books: seq<nat>, ghost t: Table, ghost best: nat)
    requires |b.zero| == max_sfb <= (if b.long then 63 else 15) && base + max_sfb <= band_type.Length == zeroes.Length
    modifies band_type, zeroes
    ensures Searched(b, t, best)
    ensures forall cb :: 0 <= cb < best ==> t.rows[max_sfb][best].cost < t.rows[max_sfb][cb].cost
    ensures books == Chosen(t, max_sfb, best) && |books| == max_sfb && Choice(books)
    ensures |pb| == WrittenBits(RunBits(b.long), books)
    ensures RunsCostTheSame(b) ==> Optimal(b, books) && Best(b, books)
    ensures forall other: seq<nat> :: |other| == max_sfb && Choice(other) ==> NotFarFrom(b, books, other)
    ensures Marked(old(band_type[..]), band_type[..], base, books)
    ensures ZeroesMarked(old(zeroes[..]), zeroes[..], base, books)
    ensures forall rest :: ParseSections(RunBits(b.long), pb + rest, max_sfb) == Parsed(books, rest)
  {
    var path := new PathPoint[120, BOOKS]((i, j) => PathPoint(0, 0.0, 0));
    t := FillTable(b, max_sfb, path);
    var stackrun, stackcb := new nat[120], new nat[120];
    TableLeadsBack(b, t);
    assert Holds(path, t, max_sfb);
    var stack_len;
    stack_len, best := Backtrack(max_sfb, path, t, stackrun, stackcb);
    ghost var ss := Unstack(stackcb[..], stackrun[..], stack_len);
    books := Chosen(t, max_sfb, best);
    ChosenShape(b, t, max_sfb, best);
    if RunsCostTheSame(b) {
      CheapestIsOptimal(b, t, best);
      BestWhenShort(b, books);
    }
    forall other: seq<nat> | |other| == max_sfb && Choice(other)
      ensures NotFarFrom(b, books, other)
    {
      AacBandBound.NeverFar(b, t, best, other);
    }
    SectionsAreRuns(RunBits(b.long), ss);
    pb := WriteSections(stackrun, stackcb, stack_len, RunBits(b.long), base, max_sfb, band_type, zeroes);
    forall rest ensures ParseSections(RunBits(b.long), pb + rest, max_sfb) == Parsed(books, rest) {
      WrittenSectionsParse(b.long, ss, rest);
    }
  }

  lemma WrittenSectionsParse(long: bool, ss: seq<Section>, rest: seq<bool>)
    requires Proper(ss)
    ensures ParseSections(RunBits(long), SectionsCode(RunBits(long), ss) + rest, |Expand(ss)|)
       == Parsed(Expand(ss), rest)
  {
    assert Pow2(3) == 8 && Pow2(5) == 4 * Pow2(3);
    SectionsParsed(RunBits(long), ss, rest, Pow2(RunBits(long)) - 1);
  }

  // ---- More bands: the search forgets what it will need ----

  /** Three books matter: 1 is cheap until the escape but for its first band, 2 is cheap in the first band only, and 3
      is cheap from the escape on. No book is free. */
  function ExampleCost(long: bool, i: nat, cb: nat): (r: real)
    ensures 1.0 <= r
  {
    if cb == 1 then (if i == 0 then ChangeCost(long) + 1.0 else if i < Escape(long) then 1.0 else 100.0)
    else if cb == 2 then (if i == 0 then 1.0 else 100.0)
    else if cb == 3 then (if i >= Escape(long) then 1.0 else 100.0)
    else 100.0
  }

  function Example(long: bool, n: nat): (b: Bands)
    ensures |b.zero| == n && b.long == long
  {
    Bands(seq(n, _ => false), (i: nat, cb: nat) => ExampleCost(long, i, cb), long)
  }

  /** What the search knows of book 1 after s bands, up to the escape. */
  function FirstCost(long: bool, s: nat): real {
    ChangeCost(long) + s as real + (if s >= Escape(long) then RunBits(long) as real else 0.0)
  }

  /** What it knows of book 3 after k bands more. */
  function SecondCost(long: bool, k: nat): real {
    FirstCost(long, Escape(long)) + ChangeCost(long) + k as real
    + (if k >= Escape(long) then RunBits(long) as real else 0.0)
  }

  ghost predicate OthersCostly(row: Row, cb: nat)
    requires |row| == BOOKS
  {
    forall k :: 0 <= k < BOOKS && k != cb ==> row[k].cost >= 100.0
  }

  /** Book cb is the cheapest, at this point, and the others are out of question. */
  ghost predicate OnlyBook(row: Row, m: (Cost, nat), cb: nat, p: PathPoint) {
    |row| == BOOKS && cb < BOOKS && row[cb] == p && OthersCostly(row, cb) && m == (Finite(p.cost), cb)
  }

  /** The table of the example, row by row. */
  ghost predicate ExampleRow(long: bool, s: nat, row: Row, m: (Cost, nat)) {
    if s == 0 then row == seq(BOOKS, _ => PathPoint(-1, 0.0, 0)) && m.0.Infinity?
    else if s == 1 then
      && |row| == BOOKS && row[1] == PathPoint(1, FirstCost(long, 1), 1) && row[2] == PathPoint(2, 1.0, 1)
      && (forall k :: 0 <= k < BOOKS && k != 1 && k != 2 ==> row[k].cost >= 100.0)
      && m == (Finite(1.0), 2)
    else if s <= Escape(long) then OnlyBook(row, m, 1, PathPoint(1, FirstCost(long, s), s))
    else
      var k := s - Escape(long);
      OnlyBook(row, m, 3, PathPoint(if k == 1 then 1 else 3, SecondCost(long, k), k))
  }

  /** The costs of one band, and the row and minimum it leads to. */
  ghost predicate Leads(long: bool, costs: seq<real>, row: Row, m: (Cost, nat), row': Row, m': (Cost, nat)) {
    && |row| == |row'| == |costs| == BOOKS && m'.0.Finite? && Front(row', m'.0, m'.1)
    && forall k :: 0 <= k < BOOKS ==> row'[k] == NextPoint(row[k], k, m.0, m.1, costs[k], long)
  }

  /** All books but cb cost 100, and cb costs 1. */
  ghost predicate OneCheap(costs: seq<real>, cb: nat) {
    |costs| == BOOKS && cb < BOOKS && forall k :: 0 <= k < BOOKS ==> costs[k] == if k == cb then 1.0 else 100.0
  }

  lemma FirstRow(long: bool, costs: seq<real>, row: Row, m: (Cost, nat), row': Row, m': (Cost, nat))
    requires Leads(long, costs, row, m, row', m') && ExampleRow(long, 0, row, m)
    requires forall k :: 0 <= k < BOOKS ==> costs[k] == ExampleCost(long, 0, k)
    ensures ExampleRow(long, 1, row', m')
  {
  }

  lemma SecondRow(long: bool, costs: seq<real>, row: Row, m: (Cost, nat), row': Row, m': (Cost, nat))
    requires Leads(long, costs, row, m, row', m') && ExampleRow(long, 1, row, m) && OneCheap(costs, 1)
    ensures ExampleRow(long, 2, row', m')
  {
  }

  /** The cheap book stays. */
  lemma StaysCheapest(long: bool, costs: seq<real>, row: Row, m: (Cost, nat), row': Row, m': (Cost, nat), cb: nat,
                      p: PathPoint)
    requires Leads(long, costs, row, m, row', m') && OneCheap(costs, cb) && OnlyBook(row, m, cb, p)
    requires 0.0 <= p.cost < 94.0
    ensures OnlyBook(row', m', cb,
      PathPoint(cb, p.cost + 1.0 + (if Jumps(long, p.run) then RunBits(long) as real else 0.0), p.run + 1))
  {
    forall k | 0 <= k < BOOKS && k != cb
      ensures row'[k].cost >= 100.0
    {
      assert row'[k] == NextPoint(row[k], k, m.0, m.1, costs[k], long);
    }
  }

  /** Another book becomes the cheap one. */
  lemma TurnsCheapest(long: bool, costs: seq<real>, row: Row, m: (Cost, nat), row': Row, m': (Cost, nat), cb: nat,
                      cb': nat, p: PathPoint)
    requires Leads(long, costs, row, m, row', m') && OneCheap(costs, cb') && cb != cb' && OnlyBook(row, m, cb, p)
    requires 0.0 <= p.cost < 80.0
    ensures OnlyBook(row', m', cb', PathPoint(cb, p.cost + 1.0 + ChangeCost(long), 1))
  {
    forall k | 0 <= k < BOOKS && k != cb'
      ensures row'[k].cost >= 100.0
    {
      assert row'[k] == NextPoint(row[k], k, m.0, m.1, costs[k], long);
    }
  }

  lemma ExampleStep(long: bool, s: nat, costs: seq<real>, row: Row, m: (Cost, nat), row': Row, m': (Cost, nat))
    requires s < MostBands(long) && ExampleRow(long, s, row, m) && Leads(long, costs, row, m, row', m')
    requires forall k :: 0 <= k < BOOKS ==> costs[k] == ExampleCost(long, s, k)
    ensures ExampleRow(long, s + 1, row', m')
  {
    if s == 0 {
      FirstRow(long, costs, row, m, row', m');
    } else if s == 1 {
      SecondRow(long, costs, row, m, row', m');
    } else if s < Escape(long) {
      FirstStays(long, s, costs, row, m, row', m');
    } else if s == Escape(long) {
      TurnsCheapest(long, costs, row, m, row', m', 1, 3, PathPoint(1, FirstCost(long, s), s));
    } else {
      SecondStays(long, s, s - Escape(long), costs, row, m, row', m');
    }
  }

  lemma FirstStays(long: bool, s: nat, costs: seq<real>, row: Row, m: (Cost, nat), row': Row, m': (Cost, nat))
    requires 1 < s < Escape(long) && ExampleRow(long, s, row, m) && Leads(long, costs, row, m, row', m')
    requires OneCheap(costs, 1)
    ensures ExampleRow(long, s + 1, row', m')
  {
    StaysCheapest(long, costs, row, m, row', m', 1, PathPoint(1, FirstCost(long, s), s));
  }

  lemma SecondStays(long: bool, s: nat, k: nat, costs: seq<real>, row: Row, m: (Cost, nat), row': Row, m': (Cost, nat))
    requires Escape(long) < s < MostBands(long) && k == s - Escape(long)
    requires ExampleRow(long, s, row, m) && Leads(long, costs, row, m, row', m') && OneCheap(costs, 3)
    ensures ExampleRow(long, s + 1, row', m')
  {
    StaysCheapest(long, costs, row, m, row', m', 3, PathPoint(if k == 1 then 1 else 3, SecondCost(long, k), k));
  }

  lemma {:induction false} ExampleRows(long: bool, n: nat, t: Table, s: nat)
    requires n <= MostBands(long) && IsTable(Example(long, n), t) && s < |t.rows|
    ensures ExampleRow(long, s, t.rows[s], t.mins[s])
  {
    if s == 0 {
    } else {
      ExampleRows(long, n, t, s - 1);
      NextExampleRow(long, n, t, s - 1);
    }
  }

  lemma NextExampleRow(long: bool, n: nat, t: Table, s: nat)
    requires n <= MostBands(long) && IsTable(Example(long, n), t) && s + 1 < |t.rows|
    requires ExampleRow(long, s, t.rows[s], t.mins[s])
    ensures ExampleRow(long, s + 1, t.rows[s + 1], t.mins[s + 1])
  {
    RowFacts(Example(long, n), t, s);
    var costs := seq(BOOKS, k requires 0 <= k < BOOKS => ExampleCost(long, s, k));
    RowLeads(long, n, s, t.rows[s], t.mins[s], t.rows[s + 1], t.mins[s + 1], costs);
    ExampleStep(long, s, costs, t.rows[s], t.mins[s], t.rows[s + 1], t.mins[s + 1]);
  }

  lemma RowLeads(long: bool, n: nat, s: nat, row: Row, m: (Cost, nat), row': Row, m': (Cost, nat), costs: seq<real>)
    requires var b := Example(long, n);
      s < n && RowStep(b, s, row, m.0, m.1, row') && MinStep(b, s, m, m') && Front(row', m'.0, m'.1)
    requires |costs| == BOOKS && forall k :: 0 <= k < BOOKS ==> costs[k] == ExampleCost(long, s, k)
    ensures Leads(long, costs, row, m, row', m')
  {
    forall k | 0 <= k < BOOKS
      ensures row'[k] == NextPoint(row[k], k, m.0, m.1, costs[k], long)
    {
      assert row'[k] == PointAfter(Example(long, n), s, row[k], k, m.0, m.1);
    }
  }

  /** Which book each of the two points came from. */
  lemma ExamplePrev(long: bool, n: nat, t: Table, s: nat)
    requires n <= MostBands(long) && IsTable(Example(long, n), t) && 0 < s < |t.rows|
    ensures s <= Escape(long) ==> t.rows[s][1].prev == 1
    ensures s > Escape(long) ==> t.rows[s][3].prev == if s == Escape(long) + 1 then 1 else 3
  {
    ExampleRows(long, n, t, s);
  }

  lemma RepeatMore(cb: nat, n: nat)
    ensures Repeat(cb, n) + [cb] == Repeat(cb, n + 1)
  {
  }

  lemma RepeatAfter(before: seq<nat>, cb: nat, n: nat)
    ensures before + Repeat(cb, n) + [cb] == before + Repeat(cb, n + 1)
    ensures n == 0 ==> before + [cb] == before + Repeat(cb, 1)
  {
    RepeatMore(cb, n);
  }

  lemma {:induction false} FirstChosen(long: bool, n: nat, t: Table, s: nat)
    requires n <= MostBands(long) && IsTable(Example(long, n), t) && s < |t.rows| && s <= Escape(long)
    ensures Chosen(t, s, 1) == Repeat(1, s)
  {
    if s == 0 {
    } else {
      FirstChosen(long, n, t, s - 1);
      ExamplePrev(long, n, t, s);
      FirstOfRun(Example(long, n), t, s, 1);
      RepeatMore(1, s - 1);
    }
  }

  /** In row s, book 3 was entered from book 1 right after row e, and kept since. */
  ghost predicate KeptSince(t: Table, e: nat, s: nat)
    requires s < |t.rows|
  {
    |t.rows[s]| == BOOKS && t.rows[s][3].prev == if s == e + 1 then 1 else 3
  }

  lemma {:induction false} ChosenSince(t: Table, e: nat, s: nat)
    requires e < s < |t.rows| && forall r :: e < r <= s ==> KeptSince(t, e, r)
    ensures Chosen(t, s, 3) == Chosen(t, e, 1) + Repeat(3, s - e)
  {
    assert KeptSince(t, e, s);
    RepeatAfter(Chosen(t, e, 1), 3, s - e - 1);
    if s > e + 1 {
      ChosenSince(t, e, s - 1);
    }
  }

  lemma ExampleChosen(long: bool, n: nat, t: Table, s: nat)
    requires n <= MostBands(long) && IsTable(Example(long, n), t) && Escape(long) < s < |t.rows|
    ensures Chosen(t, s, 3) == Repeat(1, Escape(long)) + Repeat(3, s - Escape(long))
  {
    FirstChosen(long, n, t, Escape(long));
    forall r | Escape(long) < r <= s
      ensures KeptSince(t, Escape(long), r)
    {
      ExamplePrev(long, n, t, r);
    }
    ChosenSince(t, Escape(long), s);
  }

  /** The bands cost what the first one does when all others cost 1. */
  lemma {:induction false} OnlyFirstCosts(b: Bands, a: seq<nat>)
    requires |a| <= |b.zero| && (forall i :: 0 <= i < |a| ==> !b.zero[i])
    requires forall i :: 0 < i < |a| ==> b.rd(i, a[i]) == 1.0
    ensures BandCost(b, a) == if a == [] then 0.0 else b.rd(0, a[0]) + (|a| - 1) as real
  {
    if |a| <= 1 {
    } else {
      OnlyFirstCosts(b, a[..|a| - 1]);
    }
  }

  /** What the search takes in the example, and what would have been cheaper. */
  function Taken(long: bool, n: nat): seq<nat>
    requires Escape(long) <= n
  {
    Repeat(1, Escape(long)) + Repeat(3, n - Escape(long))
  }

  function Cheaper(long: bool, n: nat): seq<nat>
    requires Escape(long) <= n
  {
    Repeat(2, 1) + (Repeat(1, Escape(long) - 1) + Repeat(3, n - Escape(long)))
  }

  lemma BandCosts(long: bool, n: nat)
    requires Escape(long) <= n
    ensures BandCost(Example(long, n), Taken(long, n)) == ChangeCost(long) + n as real
    ensures BandCost(Example(long, n), Cheaper(long, n)) == n as real
  {
    OnlyFirstCosts(Example(long, n), Taken(long, n));
    OnlyFirstCosts(Example(long, n), Cheaper(long, n));
  }

  lemma BitsOfTaken(long: bool, n: nat)
    requires Escape(long) <= n
    ensures var w := RunBits(long);
      WrittenBits(w, Taken(long, n)) == 4 + 2 * w + WrittenBits(w, Repeat(3, n - Escape(long)))
  {
    BitsOfRunAnd(RunBits(long), 1, Escape(long), Repeat(3, n - Escape(long)));
    EscapedRun(long);
  }

  lemma BitsOfCheaper(long: bool, n: nat)
    requires Escape(long) <= n
    ensures var w := RunBits(long);
      WrittenBits(w, Cheaper(long, n)) == 8 + 2 * w + WrittenBits(w, Repeat(3, n - Escape(long)))
  {
    var e, rest := Escape(long), Repeat(3, n - Escape(long));
    BitsOfRunAnd(RunBits(long), 2, 1, Repeat(1, e - 1) + rest);
    BitsOfRunAnd(RunBits(long), 1, e - 1, rest);
    RunIsShort(long, 1);
    RunIsShort(long, e - 1);
  }

  lemma CheaperIs(long: bool, n: nat)
    requires Escape(long) <= n
    ensures |Taken(long, n)| == |Cheaper(long, n)| == n && Choice(Cheaper(long, n))
    ensures Written(Example(long, n), Taken(long, n))
       == Written(Example(long, n), Cheaper(long, n)) + RunBits(long) as real
  {
    BandCosts(long, n);
    BitsOfTaken(long, n);
    BitsOfCheaper(long, n);
  }

  lemma EscapedRun(long: bool)
    ensures |RunCode(RunBits(long), Escape(long))| == 2 * RunBits(long)
  {
    assert Pow2(3) == 8 && Pow2(5) == 4 * Pow2(3);
    RunIsShort(long, 0);
  }

  lemma LeastOf(row: Row) returns (m: nat)
    requires |row| == BOOKS
    ensures m < BOOKS && IsLeast(row, Finite(row[m].cost), m)
  {
    m := 0;
    for cb := 1 to BOOKS
      invariant 0 <= m < cb && (forall k :: 0 <= k < cb ==> row[m].cost <= row[k].cost)
      invariant forall k :: 0 <= k < m ==> row[m].cost < row[k].cost
    {
      if row[cb].cost < row[m].cost { m := cb; }
    }
  }

  /** There is a table for bands none of which is zero. */
  lemma {:induction false} TableTo(b: Bands, n: nat) returns (t: Table)
    requires n <= |b.zero| && forall i :: 0 <= i < |b.zero| ==> !b.zero[i]
    ensures IsTable(b, t) && |t.rows| == n + 1
  {
    if n == 0 {
      t := Table([seq(BOOKS, _ => PathPoint(-1, 0.0, 0))], [(Infinity, 0)]);
    } else {
      var u := TableTo(b, n - 1);
      var row, m := u.rows[n - 1], u.mins[n - 1];
      var row' := seq(BOOKS, cb requires 0 <= cb < BOOKS => PointAfter(b, n - 1, row[cb], cb, m.0, m.1));
      var k := LeastOf(row');
      TableGrows(b, u, row', (Finite(row'[k].cost), k));
      t := Table(u.rows + [row'], u.mins + [(Finite(row'[k].cost), k)]);
    }
  }

  ghost predicate AlwaysBest(long: bool, n: nat) {
    forall b: Bands, t: Table, best: nat :: Searched(b, t, best) && |b.zero| == n && b.long == long ==>
      Best(b, Chosen(t, n, best))
  }

  /** The search finds the cheapest choice to write, for all costs and zero bands, if and only if there are at most 30
      bands in a long window or 6 in a short one. */
  lemma AlwaysBestIff(long: bool, n: nat)
    requires n <= MostBands(long)
    ensures AlwaysBest(long, n) <==> n < Escape(long)
  {
    if n < Escape(long) {
      forall b: Bands, t: Table, best: nat | Searched(b, t, best) && |b.zero| == n && b.long == long
        ensures Best(b, Chosen(t, n, best))
      {
        CheapestIsOptimal(b, t, best);
        BestWhenShort(b, Chosen(t, n, best));
      }
    } else {
      NotAlwaysBest(long, n);
    }
  }

  lemma NotAlwaysBest(long: bool, n: nat)
    requires Escape(long) <= n <= MostBands(long)
    ensures !AlwaysBest(long, n)
  {
    var b := Example(long, n);
    var t := TableTo(b, n);
    var best := if n == Escape(long) then 1 else 3;
    ExampleFound(long, n, t, best);
    CheaperIs(long, n);
    assert Written(b, Cheaper(long, n)) < Written(b, Chosen(t, n, best));
  }

  /** In the example with one band too many the bound on what the search can miss is reached: it is one escape. */
  lemma BoundReached(long: bool)
    ensures var n := Escape(long); var b := Example(long, n);
      && (exists t, best: nat :: Searched(b, t, best) && Chosen(t, n, best) == Taken(long, n))
      && Choice(Cheaper(long, n)) && AacBandBound.Slack(b, Cheaper(long, n)) == 1
      && Written(b, Taken(long, n))
         == Written(b, Cheaper(long, n)) + EscapeBits(long, AacBandBound.Slack(b, Cheaper(long, n))) as real
  {
    var n := Escape(long);
    var b := Example(long, n);
    var t := TableTo(b, n);
    ExampleFound(long, n, t, 1);
    CheaperIs(long, n);
    SlackOfCheaper(long, n);
  }

  lemma SlackOfCheaper(long: bool, n: nat)
    requires n == Escape(long)
    ensures AacBandBound.Slack(Example(long, n), Cheaper(long, n)) == 1
  {
    assert Cheaper(long, n) == TwoBooks(n - 1);
    MissedThenRun(long, n - 1);
  }

  /** One band in a book, and then so many in another. */
  function TwoBooks(k: nat): seq<nat> {
    Repeat(2, 1) + Repeat(1, k)
  }

  lemma {:induction false} MissedThenRun(long: bool, k: nat)
    requires k <= AacBandBound.Most(long)
    ensures AacBandBound.Missed(long, TwoBooks(k))
         == if k == AacBandBound.Most(long) then AacBandBound.Count(1, 1) else AacBandBound.Count(0, k + 1)
  {
    var a := TwoBooks(k);
    if k == 0 {
      assert a[..0] == [];
    } else {
      assert a[..|a| - 1] == TwoBooks(k - 1) && a[|a| - 1] == 1;
      assert a[|a| - 2] == if k == 1 then 2 else 1;
      MissedThenRun(long, k - 1);
    }
  }

  /** What the search finds in the example. */
  lemma ExampleFound(long: bool, n: nat, t: Table, best: nat)
    requires Escape(long) <= n <= MostBands(long) && IsTable(Example(long, n), t) && |t.rows| == n + 1
    requires best == if n == Escape(long) then 1 else 3
    ensures Searched(Example(long, n), t, best) && Chosen(t, n, best) == Taken(long, n)
  {
    ExampleRows(long, n, t, n);
    if n == Escape(long) {
      FirstChosen(long, n, t, n);
      assert Repeat(1, n) + Repeat(3, 0) == Repeat(1, n);
    } else {
      ExampleChosen(long, n, t, n);
    }
  }
}
