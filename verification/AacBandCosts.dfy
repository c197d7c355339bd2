// What an assignment of codebooks to bands costs once encode_window_bands_info of aaccoder.c has written it, and what
// the search minimises.
module AacBandCosts {
  import opened Bits
  import opened AacSections

  /** The cost of coding the bands with the chosen books. */
  function BandCost(b: Bands, a: seq<nat>): real
    requires |a| <= |b.zero|
  {
    if a == [] then 0.0
    else
      var n := |a| - 1;
      BandCost(b, a[..n]) + if b.zero[n] then 0.0 else b.rd(n, a[n])
  }

  /** How many of the first bands have the same book. */
  function FirstRun(a: seq<nat>): (r: nat)
    requires a != []
    ensures 1 <= r <= |a| && (forall i :: 0 <= i < r ==> a[i] == a[0]) && (r < |a| ==> a[r] != a[0])
  {
    if |a| == 1 || a[1] != a[0] then 1 else 1 + FirstRun(a[1..])
  }

  /** The bits of the sections of a choice, as the writer puts them out. */
  function WrittenBits(width: nat, a: seq<nat>): nat
    requires 0 < width
  {
    if a == [] then 0 else 4 + |RunCode(width, FirstRun(a))| + WrittenBits(width, a[FirstRun(a)..])
  }

  function Written(b: Bands, a: seq<nat>): real
    requires |a| <= |b.zero|
  {
    BandCost(b, a) + WrittenBits(RunBits(b.long), a) as real
  }

  /** No choice of books costs less once it is written. */
  ghost predicate Best(b: Bands, a: seq<nat>) {
    && |a| == |b.zero| && Choice(a)
    && forall other: seq<nat> :: |other| == |a| && Choice(other) ==> Written(b, a) <= Written(b, other)
  }

  // ---- Sections are runs ----

  lemma FirstRunIs(a: seq<nat>, r: nat)
    requires 1 <= r <= |a| && (forall i :: 0 <= i < r ==> a[i] == a[0]) && (r < |a| ==> a[r] != a[0])
    ensures FirstRun(a) == r
  {
  }

  lemma FirstRunOf(cb: nat, run: nat, rest: seq<nat>)
    requires 1 <= run && (rest != [] ==> rest[0] != cb)
    ensures var a := Repeat(cb, run) + rest; FirstRun(a) == run && a[run..] == rest
  {
    FirstRunIs(Repeat(cb, run) + rest, run);
  }

  lemma BitsOfRunAnd(width: nat, cb: nat, run: nat, rest: seq<nat>)
    requires 0 < width && 1 <= run && (rest != [] ==> rest[0] != cb)
    ensures WrittenBits(width, Repeat(cb, run) + rest) == 4 + |RunCode(width, run)| + WrittenBits(width, rest)
  {
    FirstRunOf(cb, run, rest);
  }

  /** The bits written for sections are those of the choice they stand for. */
  lemma {:induction false} SectionsAreRuns(width: nat, ss: seq<Section>)
    requires 0 < width && Proper(ss) && NoRepeat(ss)
    ensures |SectionsCode(width, ss)| == WrittenBits(width, Expand(ss))
    decreases |ss|
  {
    if ss == [] {
    } else {
      var rest := Expand(ss[1..]);
      if |ss| > 1 {
        assert rest[0] == ss[1].cb;
      }
      FirstRunOf(ss[0].cb, ss[0].run, rest);
      SectionsAreRuns(width, ss[1..]);
    }
  }

  /** The number of bands the run tables of the code provide for. */
  function MostBands(long: bool): nat {
    if long then 63 else 15
  }

  /** The shortest run that takes an escape. */
  function Escape(long: bool): nat {
    if long then 31 else 7
  }

  lemma RunCodeStep(width: nat, run: nat, esc: nat, rest: nat)
    requires 0 < width && 1 <= esc == Pow2(width) - 1 && (run >= esc ==> rest == run - esc)
    ensures |RunCode(width, run)| == if run < esc then width else width + |RunCode(width, rest)|
  {
  }

  /** The table the search looks run lengths up in says what the writer takes for all of them but one, the run that just
      fills two escapes. */
  lemma TableMatchesCode(long: bool, run: nat)
    requires run <= MostBands(long)
    ensures |RunCode(RunBits(long), run)| == RunValueBits(long, run) <==> run != 2 * Escape(long)
  {
    var width, esc := RunBits(long), Escape(long);
    assert Pow2(3) == 8 && Pow2(5) == 4 * Pow2(3);
    var once := if esc <= run then run - esc else 0;
    var twice := if esc <= once then once - esc else 0;
    RunCodeStep(width, run, esc, once);
    RunCodeStep(width, once, esc, twice);
    RunCodeStep(width, twice, esc, 0);
  }

  // ---- Few bands: every section costs the same ----

  function Changes(a: seq<nat>): nat {
    if |a| <= 1 then 0 else Changes(a[..|a| - 1]) + if a[|a| - 1] != a[|a| - 2] then 1 else 0
  }

  /** The bits of so many sections whose runs take no escape, and of so many escapes. */
  function SectionBits(long: bool, k: nat): nat {
    if long then 9 * k else 7 * k
  }

  function EscapeBits(long: bool, e: nat): nat {
    if long then 5 * e else 3 * e
  }

  /** The bands so many escapes stand for. */
  function EscapedBands(long: bool, e: nat): nat {
    if long then 31 * e else 7 * e
  }

  lemma {:induction false} TotalIs(b: Bands, a: seq<nat>)
    requires |a| <= |b.zero|
    ensures Total(b, a) == BandCost(b, a) + SectionBits(b.long, Changes(a)) as real
  {
    if a == [] {
    } else {
      TotalIs(b, a[..|a| - 1]);
    }
  }

  lemma {:induction false} ChangesJoined(x: seq<nat>, y: seq<nat>)
    requires x != [] && y != []
    ensures Changes(x + y) == Changes(x) + Changes(y) + if x[|x| - 1] != y[0] then 1 else 0
    decreases |y|
  {
    var n := |y| - 1;
    assert (x + y)[..|x + y| - 1] == x + y[..n];
    if n == 0 {
      assert x + y[..0] == x;
    } else {
      ChangesJoined(x, y[..n]);
    }
  }

  lemma {:induction false} NoChange(cb: nat, n: nat)
    ensures Changes(Repeat(cb, n)) == 0
  {
    if n <= 1 {
    } else {
      assert Repeat(cb, n)[..n - 1] == Repeat(cb, n - 1);
      NoChange(cb, n - 1);
    }
  }

  lemma ChangesOfRunAnd(cb: nat, run: nat, rest: seq<nat>)
    requires 1 <= run && rest != [] && rest[0] != cb
    ensures Changes(Repeat(cb, run) + rest) == Changes(rest) + 1
  {
    NoChange(cb, run);
    ChangesJoined(Repeat(cb, run), rest);
  }

  lemma SplitRun(a: seq<nat>, r: nat, rest: seq<nat>)
    requires a != [] && r == FirstRun(a) && rest == a[r..]
    ensures a == Repeat(a[0], r) + rest && (rest != [] ==> rest[0] != a[0])
  {
  }

  lemma ChangesAfterRun(a: seq<nat>, r: nat, rest: seq<nat>)
    requires 1 <= r && a != [] && a == Repeat(a[0], r) + rest && (rest != [] ==> rest[0] != a[0])
    ensures Changes(a) == if rest == [] then 0 else Changes(rest) + 1
  {
    if rest == [] {
      assert a == Repeat(a[0], r);
      NoChange(a[0], r);
    } else {
      ChangesOfRunAnd(a[0], r, rest);
    }
  }

  lemma RunIsShort(long: bool, run: nat)
    requires run < Escape(long)
    ensures |RunCode(RunBits(long), run)| == RunBits(long)
  {
    assert Pow2(3) == 8 && Pow2(5) == 4 * Pow2(3);
  }

  lemma RunIsLong(long: bool, run: nat)
    requires run >= Escape(long)
    ensures |RunCode(RunBits(long), run)| == RunBits(long) + |RunCode(RunBits(long), run - Escape(long))|
  {
    assert Pow2(3) == 8 && Pow2(5) == 4 * Pow2(3);
  }

  lemma {:induction false} BitsOfRun(long: bool, run: nat) returns (e: nat)
    ensures |RunCode(RunBits(long), run)| == RunBits(long) + EscapeBits(long, e) && EscapedBands(long, e) <= run
    decreases run
  {
    if run < Escape(long) {
      RunIsShort(long, run);
      e := 0;
    } else {
      RunIsLong(long, run);
      e := BitsOfRun(long, run - Escape(long));
      e := e + 1;
    }
  }

  /** The bits of a choice: its sections, and so many escapes. */
  lemma {:induction false} BitsOfRuns(long: bool, a: seq<nat>) returns (e: nat)
    requires a != []
    ensures BitsAre(long, a, e)
    decreases |a|
  {
    var r := FirstRun(a);
    var rest := a[r..];
    e := BitsOfRun(long, r);
    if rest == [] {
      BitsOfOneRun(long, a, r, e);
    } else {
      var more := BitsOfRuns(long, rest);
      BitsOfMoreRuns(long, a, r, rest, e, more, e + more);
      e := e + more;
    }
  }

  /** The bits of a are those of its sections and of e escapes, which take no more bands than there are. */
  ghost predicate BitsAre(long: bool, a: seq<nat>, e: nat) {
    && WrittenBits(RunBits(long), a) == SectionBits(long, Changes(a) + 1) + EscapeBits(long, e)
    && EscapedBands(long, e) <= |a|
  }

  ghost predicate RunBitsAre(long: bool, r: nat, e: nat) {
    |RunCode(RunBits(long), r)| == RunBits(long) + EscapeBits(long, e) && EscapedBands(long, e) <= r
  }

  lemma BitsOfOneRun(long: bool, a: seq<nat>, r: nat, e: nat)
    requires a != [] && r == FirstRun(a) && a[r..] == [] && RunBitsAre(long, r, e)
    ensures BitsAre(long, a, e)
  {
    SplitRun(a, r, []);
    ChangesAfterRun(a, r, []);
    FirstBits(RunBits(long), a, r, []);
  }

  lemma BitsOfMoreRuns(long: bool, a: seq<nat>, r: nat, rest: seq<nat>, e: nat, more: nat, all: nat)
    requires a != [] && r == FirstRun(a) && rest == a[r..] && rest != [] && all == e + more
    requires RunBitsAre(long, r, e) && BitsAre(long, rest, more)
    ensures BitsAre(long, a, all)
  {
    SplitRun(a, r, rest);
    ChangesAfterRun(a, r, rest);
    FirstBits(RunBits(long), a, r, rest);
    assert |a| == r + |rest|;
    BitsAdd(long, |RunCode(RunBits(long), r)|, e, WrittenBits(RunBits(long), rest), Changes(rest), more, all,
      WrittenBits(RunBits(long), a), Changes(a));
  }

  lemma FirstBits(width: nat, a: seq<nat>, r: nat, rest: seq<nat>)
    requires 0 < width && a != [] && r == FirstRun(a) && rest == a[r..]
    ensures WrittenBits(width, a) == 4 + |RunCode(width, r)| + WrittenBits(width, rest)
  {
  }

  lemma BitsAdd(long: bool, first: nat, e: nat, rest: nat, changes: nat, more: nat, all: nat, bits: nat, changes': nat)
    requires first == RunBits(long) + EscapeBits(long, e) && all == e + more
    requires rest == SectionBits(long, changes + 1) + EscapeBits(long, more)
    requires bits == 4 + first + rest && changes' == changes + 1
    ensures bits == SectionBits(long, changes' + 1) + EscapeBits(long, all)
    ensures EscapedBands(long, all) == EscapedBands(long, e) + EscapedBands(long, more)
  {
  }

  /** What is written costs the total of the choice, one more section, and the escapes. */
  lemma WrittenIs(b: Bands, a: seq<nat>) returns (e: nat)
    requires a != [] && |a| <= |b.zero|
    ensures Written(b, a) == Total(b, a) + ChangeCost(b.long) + EscapeBits(b.long, e) as real
    ensures EscapedBands(b.long, e) <= |a|
  {
    TotalIs(b, a);
    e := BitsOfRuns(b.long, a);
  }

  /** a is a choice of books of least total cost. */
  ghost predicate Optimal(b: Bands, a: seq<nat>) {
    && |a| == |b.zero| && Choice(a)
    && forall other: seq<nat> :: |other| == |a| && Choice(other) ==> Total(b, a) <= Total(b, other)
  }

  /** Up to 30 long or 6 short bands, the choice of least total cost is the cheapest to write. */
  lemma BestWhenShort(b: Bands, a: seq<nat>)
    requires Optimal(b, a) && RunsCostTheSame(b)
    ensures Best(b, a)
  {
    forall other: seq<nat> | |other| == |a| && Choice(other)
      ensures Written(b, a) <= Written(b, other)
    {
      assert Total(b, a) <= Total(b, other);
      WrittenIsTotal(b, a);
      WrittenIsTotal(b, other);
    }
  }

  lemma WrittenIsTotal(b: Bands, a: seq<nat>)
    requires RunsCostTheSame(b) && |a| == |b.zero|
    ensures Written(b, a) == Total(b, a) + if a == [] then 0.0 else ChangeCost(b.long)
  {
    if a != [] {
      var e := WrittenIs(b, a);
    }
  }

  /** The end of a search: the table, and the cheapest last point. */
  ghost predicate Searched(b: Bands, t: Table, best: nat) {
    && IsTable(b, t) && |t.rows| == |b.zero| + 1 && best < BOOKS
    && forall cb :: 0 <= cb < BOOKS ==> t.rows[|b.zero|][best].cost <= t.rows[|b.zero|][cb].cost
  }

  /** The choice the cheapest last point stands for is optimal when every run costs the same. */
  lemma CheapestIsOptimal(b: Bands, t: Table, best: nat)
    requires Searched(b, t, best) && RunsCostTheSame(b)
    ensures Optimal(b, Chosen(t, |b.zero|, best))
  {
    var n := |b.zero|;
    var a := Chosen(t, n, best);
    ChosenShape(b, t, n, best);
    CostIsAttained(b, t, n, best);
    forall other: seq<nat> | |other| == n && Choice(other) ensures Total(b, a) <= Total(b, other) {
      CostIsLowerBound(b, t, other);
      FloorIsLeast(b, t, n);
    }
  }
}
