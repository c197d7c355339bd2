// search_for_quantizers_twoloop of aaccoder.c and the scalefactor writer of aacenc.c that relies on it.
// Float comparisons and quantisation costs are arbitrary: every result holds whatever they turn out to be.
module AacQuantizers {
  import Bits

  const SCALE_ONE_POS := 140
  const SCALE_MAX_DIFF := 60
  const SCALE_DIFF_ZERO := 60
  const SCALE_DIV_512 := 36
  const POW_SF2_ZERO := 200
  const POW_SF_TABLE := 428

  /** The windows of a channel, in groups; num_swb bands each.  A window that continues a group has length 0. */
  datatype Ics = Ics(num_windows: nat, group_len: seq<nat>, num_swb: nat)

  /** The groups starting at window w, one after the other, end exactly at window n. */
  ghost predicate Groups(group_len: seq<nat>, w: nat, n: nat)
    requires n <= |group_len|
    decreases n - w
  {
    w == n || (w < n && 1 <= group_len[w] && Groups(group_len, w + group_len[w], n))
  }

  ghost predicate ValidIcs(ics: Ics) {
    && 1 <= ics.num_windows <= |ics.group_len| && 1 <= ics.num_swb
    && (ics.num_windows - 1) * 16 + ics.num_swb <= 128 && (ics.num_windows > 1 ==> ics.num_swb <= 16)
    && Groups(ics.group_len, 0, ics.num_windows)
  }

  /** Window w starts a group, or is the end. */
  ghost predicate AtGroup(ics: Ics, w: nat) {
    ValidIcs(ics) && Groups(ics.group_len, w, ics.num_windows)
  }

  // ---- Where the groups come from ----

  predicate Continues(mask: nat, i: nat) {
    mask / Bits.Pow2(i) % 2 == 1
  }

  /** The grouping the psychoacoustic model makes of a mask for eight short windows, one bit a window, set where the
      window continues its group.  Whatever the mask, the groups tile the windows; and the bit put_ics_info writes for
      a window, whether its length is 0, is the bit of the mask. */
  method GroupWindows(mask: nat) returns (grouping: array<nat>)
    ensures fresh(grouping) && grouping.Length == 8
    ensures Groups(grouping[..], 0, 8)
    ensures forall w :: 1 <= w < 8 ==> (grouping[w] == 0 <==> Continues(mask, w))
  {
    grouping := new nat[8](_ => 0);
    var lastgrp := 0;
    for i := 0 to 8
      invariant lastgrp <= i && (i > 0 ==> lastgrp < i) && grouping[lastgrp] == i - lastgrp
      invariant Groups(grouping[..], 0, lastgrp)
      invariant forall k :: lastgrp < k < 8 ==> grouping[k] == 0
      invariant forall w :: 1 <= w < i ==> (grouping[w] == 0 <==> Continues(mask, w))
    {
      if !Continues(mask, i) {
        GroupsExtend(grouping[..], 0, lastgrp, i);
        lastgrp := i;
      }
      ghost var before := grouping[..];
      grouping[lastgrp] := grouping[lastgrp] + 1;
      GroupsSame(before, grouping[..], 0, lastgrp);
    }
    GroupsExtend(grouping[..], 0, lastgrp, 8);
  }

  /** A group behind the groups. */
  lemma {:induction false} GroupsExtend(group_len: seq<nat>, w: nat, last: nat, n: nat)
    requires last <= n <= |group_len| && w <= last && Groups(group_len, w, last)
    requires last == n || (last < n && group_len[last] == n - last)
    ensures Groups(group_len, w, n)
    decreases n - w
  {
    if last <= w {
    } else {
      GroupsExtend(group_len, w + group_len[w], last, n);
    }
  }

  lemma {:induction false} GroupsSame(group_len: seq<nat>, other: seq<nat>, w: nat, n: nat)
    requires n <= |group_len| == |other| && group_len[..n] == other[..n] && w <= n && Groups(group_len, w, n)
    ensures Groups(other, w, n)
    decreases n - w
  {
    if n <= w {
    } else {
      assert group_len[..n][w] == other[..n][w];
      GroupsSame(group_len, other, w + group_len[w], n);
    }
  }

  /** A frame of eight short windows grouped by the first mask of the model's table, 0xB6, is one the loops accept;
      they visit the bands of windows 0, 3 and 6. */
  lemma GroupedShortWindows(p: int)
    ensures ValidIcs(Ics(8, [3, 0, 0, 3, 0, 0, 2, 0], 14))
    ensures Visits(Ics(8, [3, 0, 0, 3, 0, 0, 2, 0], 14), 0, p) <==> 0 <= p < 14 || 48 <= p < 62 || 96 <= p < 110
    ensures forall w :: 1 <= w < 8 ==> (Continues(0xB6, w) <==> [3, 0, 0, 3, 0, 0, 2, 0][w] == 0)
  {
    var ics := Ics(8, [3, 0, 0, 3, 0, 0, 2, 0], 14);
    VisitsEnd(ics, p);
    VisitsStep(ics, 6, 8, p);
    VisitsStep(ics, 3, 6, p);
    VisitsStep(ics, 0, 3, p);
    assert Bits.Pow2(1) == 2 && Bits.Pow2(2) == 4 && Bits.Pow2(3) == 8 && Bits.Pow2(4) == 16;
    assert Bits.Pow2(5) == 32 && Bits.Pow2(6) == 64 && Bits.Pow2(7) == 128;
    assert !Continues(0xB6, 3) && !Continues(0xB6, 6);
  }

  lemma VisitsEnd(ics: Ics, p: int)
    requires ics.num_windows <= |ics.group_len|
    ensures Groups(ics.group_len, ics.num_windows, ics.num_windows)
    ensures ValidIcs(ics) ==> !Visits(ics, ics.num_windows, p)
  {
  }

  lemma VisitsStep(ics: Ics, w: nat, next: nat, p: int)
    requires w < ics.num_windows <= |ics.group_len|
    requires 1 <= ics.group_len[w] && next == w + ics.group_len[w] && Groups(ics.group_len, next, ics.num_windows)
    ensures Groups(ics.group_len, w, ics.num_windows)
    ensures ValidIcs(ics) ==> (Visits(ics, w, p) <==> OfGroup(ics, w, p) || Visits(ics, next, p))
  {
  }

  // ---- The bands the loops visit ----

  /** Band p is one of the bands of the group starting at window w. */
  predicate OfGroup(ics: Ics, w: nat, p: int) {
    w * 16 <= p < w * 16 + ics.num_swb
  }

  /** Band p is one of those the loops over groups visit from window w on. */
  ghost predicate Visits(ics: Ics, w: nat, p: int): (visits: bool)
    requires AtGroup(ics, w)
    ensures visits ==> 0 <= p < 128
    decreases ics.num_windows - w
  {
    w < ics.num_windows && (OfGroup(ics, w, p) || Visits(ics, w + ics.group_len[w], p))
  }

  /** What is visited from window w on is visited from the start on. */
  ghost predicate Reached(ics: Ics, w: nat)
    requires AtGroup(ics, w)
  {
    forall p :: Visits(ics, w, p) ==> Visits(ics, 0, p)
  }

  lemma ReachedNext(ics: Ics, w: nat, w': nat)
    requires AtGroup(ics, w) && Reached(ics, w) && w < ics.num_windows && w' == w + ics.group_len[w]
    ensures AtGroup(ics, w') && Reached(ics, w')
  {
  }

  /** A table of 8 windows with 16 places each. */
  predicate InTable(sf: seq<int>) {
    |sf| == 128
  }

  /** Any two bands differ by at most the standard's maximum. */
  ghost predicate Spread(ics: Ics, sf: seq<int>)
    requires ValidIcs(ics) && InTable(sf)
  {
    forall p, q :: Visits(ics, 0, p) && Visits(ics, 0, q) ==> sf[p] - sf[q] <= SCALE_MAX_DIFF
  }

  ghost predicate Within(ics: Ics, sf: seq<int>, low: int, high: int)
    requires ValidIcs(ics) && InTable(sf)
  {
    forall p :: Visits(ics, 0, p) ==> low <= sf[p] <= high
  }

  /** The number of bits a band takes with a scalefactor; the two tables it looks up are indexed in range. */
  method QuantizeBandCost(scale_idx: int) returns (bits: nat)
    requires 0 <= POW_SF2_ZERO + scale_idx - SCALE_ONE_POS + SCALE_DIV_512 < POW_SF_TABLE
    requires 0 <= POW_SF2_ZERO - scale_idx + SCALE_ONE_POS - SCALE_DIV_512 < POW_SF_TABLE
  {
    bits :| 0 <= bits;
  }

  /** x is the scalefactor of a band. */
  ghost predicate OfABand(ics: Ics, sf: seq<int>, x: int)
    requires ValidIcs(ics) && InTable(sf)
  {
    exists p :: Visits(ics, 0, p) && sf[p] == x
  }

  /** x is the scalefactor of a band that is counted: one that is heard, with a scalefactor below 218. */
  ghost predicate Met(ics: Ics, sf: seq<int>, zeroes: seq<bool>, x: int)
    requires ValidIcs(ics) && InTable(sf) && |zeroes| == 128
  {
    exists p :: Visits(ics, 0, p) && !zeroes[p] && sf[p] < 218 && sf[p] == x
  }

  /** One pass over the bands, counting bits; every scalefactor difference is looked up within its 121 entries, and the
      least scalefactor met is kept. */
  method CountBits(ics: Ics, sf_idx: array<int>, zeroes: array<bool>, scalefactor_bits: seq<nat>, least: int)
    returns (tbits: nat, minscaler: int)
    requires ValidIcs(ics) && InTable(sf_idx[..]) && zeroes.Length == 128 && |scalefactor_bits| == 121
    requires Spread(ics, sf_idx[..]) && Within(ics, sf_idx[..], 59, 219)
    ensures minscaler <= least && (minscaler == least || Met(ics, sf_idx[..], zeroes[..], minscaler))
    ensures forall p :: Visits(ics, 0, p) && !zeroes[p] && sf_idx[p] < 218 ==> minscaler <= sf_idx[p]
  {
    var prev := -1;
    tbits, minscaler := 0, least;
    var w := 0;
    while w < ics.num_windows
      invariant AtGroup(ics, w) && Reached(ics, w) && (prev == -1 || OfABand(ics, sf_idx[..], prev))
      invariant minscaler <= least && (minscaler == least || Met(ics, sf_idx[..], zeroes[..], minscaler))
      invariant forall p :: Visits(ics, 0, p) && !Visits(ics, w, p) && !zeroes[p] && sf_idx[p] < 218 ==>
        minscaler <= sf_idx[p]
      decreases ics.num_windows - w
    {
      var bits;
      bits, minscaler, prev := CountGroup(ics, sf_idx, zeroes, scalefactor_bits, w, minscaler, prev);
      tbits := tbits + bits;
      w := w + ics.group_len[w];
    }
  }

  /** The bands of one group. */
  method CountGroup(ics: Ics, sf_idx: array<int>, zeroes: array<bool>, scalefactor_bits: seq<nat>, w: nat, least: int,
                    before: int)
    returns (tbits: nat, minscaler: int, prev: int)
    requires ValidIcs(ics) && InTable(sf_idx[..]) && zeroes.Length == 128 && |scalefactor_bits| == 121
    requires Spread(ics, sf_idx[..]) && Within(ics, sf_idx[..], 59, 219)
    requires w < ics.num_windows && AtGroup(ics, w) && Reached(ics, w)
    requires (before == -1 || OfABand(ics, sf_idx[..], before))
    ensures prev == -1 || OfABand(ics, sf_idx[..], prev)
    ensures minscaler <= least && (minscaler == least || Met(ics, sf_idx[..], zeroes[..], minscaler))
    ensures forall p :: OfGroup(ics, w, p) && !zeroes[p] && sf_idx[p] < 218 ==> minscaler <= sf_idx[p]
  {
    tbits, minscaler, prev := 0, least, before;
    ghost var sf := sf_idx[..];
    var g := 0;
    while g < ics.num_swb
      invariant 0 <= g <= ics.num_swb && (prev == -1 || OfABand(ics, sf, prev))
      invariant minscaler <= least && (minscaler == least || Met(ics, sf, zeroes[..], minscaler))
      invariant forall p :: w * 16 <= p < w * 16 + g && !zeroes[p] && sf[p] < 218 ==> minscaler <= sf[p]
    {
      var k := w * 16 + g;
      assert Visits(ics, w, k);
      if !zeroes[k] && sf_idx[k] < 218 {
        LookupsInRange(ics, sf, k, prev);
        assert Met(ics, sf, zeroes[..], sf[k]);
        minscaler := if sf_idx[k] < minscaler then sf_idx[k] else minscaler;
        var bits := QuantizeBandCost(sf_idx[k]);
        if prev != -1 {
          bits := bits + scalefactor_bits[sf_idx[k] - prev + SCALE_DIFF_ZERO];
        }
        tbits := tbits + bits;
        prev := sf_idx[k];
      }
      g := g + 1;
    }
  }

  lemma LookupsInRange(ics: Ics, sf: seq<int>, k: nat, prev: int)
    requires ValidIcs(ics) && InTable(sf) && Spread(ics, sf) && Within(ics, sf, 59, 219)
    requires Visits(ics, 0, k) && (prev == -1 || OfABand(ics, sf, prev))
    ensures k < 128 && 59 <= sf[k] <= 219 && OfABand(ics, sf, sf[k])
    ensures prev == -1 || 0 <= sf[k] - prev + SCALE_DIFF_ZERO <= 120
  {
    if prev != -1 {
      var p :| Visits(ics, 0, p) && sf[p] == prev;
    }
  }

  // ---- The rate loop ----

  /** Every scalefactor below 218 - qstep has grown by exactly the step, and no other one has changed. */
  ghost predicate AllRaised(before: seq<int>, after: seq<int>, qstep: nat) {
    && |after| == |before|
    && forall i :: 0 <= i < |before| ==> after[i] == before[i] + (if before[i] < 218 - qstep then qstep else 0)
  }

  /** Every scalefactor above 60 - qstep has shrunk by exactly the step, and no other one has changed. */
  ghost predicate AllLowered(before: seq<int>, after: seq<int>, qstep: nat) {
    && |after| == |before|
    && forall i :: 0 <= i < |before| ==> after[i] == before[i] - (if before[i] > 60 - qstep then qstep else 0)
  }

  method RaiseAll(sf_idx: array<int>, qstep: nat)
    modifies sf_idx
    ensures AllRaised(old(sf_idx[..]), sf_idx[..], qstep)
  {
    for i := 0 to sf_idx.Length
      invariant forall k :: 0 <= k < sf_idx.Length ==>
        sf_idx[k] == old(sf_idx[k]) + (if k < i && old(sf_idx[k]) < 218 - qstep then qstep else 0)
    {
      if sf_idx[i] < 218 - qstep {
        sf_idx[i] := sf_idx[i] + qstep;
      }
    }
  }

  method LowerAll(sf_idx: array<int>, qstep: nat)
    modifies sf_idx
    ensures AllLowered(old(sf_idx[..]), sf_idx[..], qstep)
  {
    for i := 0 to sf_idx.Length
      invariant forall k :: 0 <= k < sf_idx.Length ==>
        sf_idx[k] == old(sf_idx[k]) - (if k < i && old(sf_idx[k]) > 60 - qstep then qstep else 0)
    {
      if sf_idx[i] > 60 - qstep {
        sf_idx[i] := sf_idx[i] - qstep;
      }
    }
  }

  /** The state of the rate loop: with step qstep still to be tried there is room to lower it down to 1. */
  ghost predicate RateLoop(ics: Ics, sf: seq<int>, qstep: nat)
    requires ValidIcs(ics)
  {
    InTable(sf) && Spread(ics, sf) && Within(ics, sf, if qstep == 0 then 59 else 58 + 2 * qstep, 219)
  }

  predicate IsStep(qstep: nat) {
    qstep in {1, 2, 4, 8, 16, 32}
  }

  lemma Halved(qstep: nat)
    requires IsStep(qstep)
    ensures if qstep == 1 then qstep / 2 == 0 else IsStep(qstep / 2) && qstep / 2 < qstep
  {
  }

  lemma RaiseKeeps(ics: Ics, sf: seq<int>, sf': seq<int>, qstep: nat)
    requires ValidIcs(ics) && RateLoop(ics, sf, qstep) && IsStep(qstep)
    requires AllRaised(sf, sf', qstep)
    ensures RateLoop(ics, sf', qstep) && RateLoop(ics, sf', qstep / 2)
  {
  }

  lemma LowerKeeps(ics: Ics, sf: seq<int>, sf': seq<int>, qstep: nat)
    requires ValidIcs(ics) && RateLoop(ics, sf, qstep) && IsStep(qstep)
    requires AllLowered(sf, sf', qstep)
    ensures RateLoop(ics, sf', qstep / 2)
  {
  }

  /** One pass of the loop: its step, its count and the scalefactors around it. */
  datatype Pass = Pass(qstep: nat, tbits: nat, before: seq<int>, after: seq<int>)

  /** A pass that counts too many bits raises the scalefactors, any other one lowers them. */
  ghost predicate PassDone(p: Pass, destbits: nat) {
    && InTable(p.before)
    && (p.tbits > destbits ==> AllRaised(p.before, p.after, p.qstep))
    && (p.tbits <= destbits ==> AllLowered(p.before, p.after, p.qstep))
  }

  /** At step 1 there is a further pass only if the count was more than 2 percent over and the first scalefactor has
      room to grow. */
  ghost predicate GoesOn(p: Pass, destbits: nat)
    requires InTable(p.after)
  {
    p.qstep > 1 || (p.tbits as real > destbits as real * 1.02 && p.after[0] < 217)
  }

  ghost predicate Follows(p: Pass, q: Pass, destbits: nat)
    requires InTable(p.after)
  {
    q.before == p.after && GoesOn(p, destbits) && q.qstep == if p.qstep > 1 then p.qstep / 2 else 1
  }

  /** The passes of one run of the loop, so far, from the scalefactors start to those in end. */
  ghost predicate Passes(passes: seq<Pass>, destbits: nat, first: nat, start: seq<int>, end: seq<int>) {
    && (forall i :: 0 <= i < |passes| ==> PassDone(passes[i], destbits))
    && (forall i, j :: 0 <= i && j == i + 1 && j < |passes| ==> Follows(passes[i], passes[j], destbits))
    && (passes == [] ==> start == end)
    && (passes != [] ==> passes[0].qstep == first && passes[0].before == start && passes[|passes| - 1].after == end)
  }

  /** So far the passes lead to the scalefactors sf, and the next one has step qstep. */
  ghost predicate Running(passes: seq<Pass>, destbits: nat, first: nat, start: seq<int>, sf: seq<int>, qstep: nat) {
    && Passes(passes, destbits, first, start, sf)
    && (passes == [] ==> qstep == first)
    && (passes != [] ==> var q := passes[|passes| - 1];
          GoesOn(q, destbits) && qstep == if q.qstep > 1 then q.qstep / 2 else 1)
  }

  lemma RunOn(passes: seq<Pass>, p: Pass, on: seq<Pass>, destbits: nat, first: nat, start: seq<int>)
    requires Running(passes, destbits, first, start, p.before, p.qstep) && PassDone(p, destbits) && on == passes + [p]
    ensures Passes(on, destbits, first, start, p.after) && |on| > 0 && on[|on| - 1] == p
    ensures GoesOn(p, destbits) ==>
      Running(on, destbits, first, start, p.after, if p.qstep > 1 then p.qstep / 2 else 1)
  {
    var n := |passes|;
    assert on[n] == p && forall i :: 0 <= i < n ==> on[i] == passes[i];
    assert n > 0 ==> on[0] == passes[0] && Follows(passes[n - 1], p, destbits);
    forall i, j | 0 <= i && j == i + 1 && j < |on| ensures Follows(on[i], on[j], destbits) {
      assert on[i] == passes[i] && (j < n ==> on[j] == passes[j]);
    }
  }

  /** The bands heard that a pass counts. */
  ghost predicate Counts(ics: Ics, zeroes: seq<bool>, p: Pass, b: int)
    requires ValidIcs(ics) && InTable(p.before) && |zeroes| == 128
  {
    Visits(ics, 0, b) && !zeroes[b] && p.before[b] < 218
  }

  /** The least of the first scalefactor and of all those counted. */
  ghost predicate LeastCounted(ics: Ics, zeroes: seq<bool>, passes: seq<Pass>, first: int, least: int)
    requires ValidIcs(ics) && |zeroes| == 128
    requires forall i :: 0 <= i < |passes| ==> InTable(passes[i].before)
  {
    && least <= first
    && (forall i, b :: 0 <= i < |passes| && Counts(ics, zeroes, passes[i], b) ==> least <= passes[i].before[b])
    && (least == first
        || exists i, b :: 0 <= i < |passes| && Counts(ics, zeroes, passes[i], b) && passes[i].before[b] == least)
  }

  lemma LeastOn(ics: Ics, zeroes: seq<bool>, passes: seq<Pass>, p: Pass, on: seq<Pass>, first: int, least: int,
                least': int)
    requires ValidIcs(ics) && |zeroes| == 128 && InTable(p.before) && on == passes + [p]
    requires forall i :: 0 <= i < |on| ==> InTable(on[i].before)
    requires forall i :: 0 <= i < |passes| ==> InTable(passes[i].before)
    requires LeastCounted(ics, zeroes, passes, first, least)
    requires least' <= least && (least' == least || Met(ics, p.before, zeroes, least'))
    requires forall b :: Visits(ics, 0, b) && !zeroes[b] && p.before[b] < 218 ==> least' <= p.before[b]
    ensures LeastCounted(ics, zeroes, on, first, least')
  {
    if least' != least {
      var b :| Visits(ics, 0, b) && !zeroes[b] && p.before[b] < 218 && p.before[b] == least';
      assert on[|passes|] == p && Counts(ics, zeroes, on[|passes|], b);
    } else if least != first {
      var i, b :| 0 <= i < |passes| && Counts(ics, zeroes, passes[i], b) && passes[i].before[b] == least;
      assert on[i] == passes[i] && Counts(ics, zeroes, on[i], b);
    }
  }

  /** One pass of the loop. */
  method RatePass(ics: Ics, sf_idx: array<int>, zeroes: array<bool>, scalefactor_bits: seq<nat>, destbits: nat,
                  qstep: nat, least: int)
    returns (tbits: nat, minscaler: int, ghost p: Pass)
    requires ValidIcs(ics) && RateLoop(ics, sf_idx[..], qstep) && IsStep(qstep)
    requires zeroes.Length == 128 && |scalefactor_bits| == 121
    modifies sf_idx
    ensures p == Pass(qstep, tbits, old(sf_idx[..]), sf_idx[..]) && PassDone(p, destbits)
    ensures RateLoop(ics, sf_idx[..], qstep / 2) && (tbits > destbits ==> RateLoop(ics, sf_idx[..], qstep))
    ensures minscaler <= least && (minscaler == least || Met(ics, p.before, zeroes[..], minscaler))
    ensures forall b :: Visits(ics, 0, b) && !zeroes[b] && p.before[b] < 218 ==> minscaler <= p.before[b]
    ensures qstep == 1 && tbits > destbits && sf_idx[0] < 217 ==> sf_idx[0] == old(sf_idx[0]) + 1
  {
    ghost var sf := sf_idx[..];
    tbits, minscaler := CountBits(ics, sf_idx, zeroes, scalefactor_bits, least);
    if tbits > destbits {
      RaiseAll(sf_idx, qstep);
      RaiseKeeps(ics, sf, sf_idx[..], qstep);
    } else {
      LowerAll(sf_idx, qstep);
      LowerKeeps(ics, sf, sf_idx[..], qstep);
    }
    p := Pass(qstep, tbits, sf, sf_idx[..]);
  }

  /** The inner loop fits the spectrum into the bits wanted.  It ends whatever the counts: the step halves
      down to 1, and it is set back to 1 only after the first scalefactor, below 217, has grown. */
  method InnerLoop(ics: Ics, sf_idx: array<int>, zeroes: array<bool>, scalefactor_bits: seq<nat>, destbits: nat,
                   first: nat)
    returns (minscaler: int, ghost passes: seq<Pass>)
    requires ValidIcs(ics) && RateLoop(ics, sf_idx[..], first) && IsStep(first)
    requires zeroes.Length == 128 && |scalefactor_bits| == 121
    modifies sf_idx
    ensures RateLoop(ics, sf_idx[..], 0)
    ensures passes != [] && Passes(passes, destbits, first, old(sf_idx[..]), sf_idx[..])
    ensures !GoesOn(passes[|passes| - 1], destbits)
    ensures LeastCounted(ics, zeroes[..], passes, old(sf_idx[0]), minscaler)
    ensures passes[|passes| - 1].tbits as real <= destbits as real * 1.02 || sf_idx[0] >= 217
  {
    var qstep := first;
    minscaler := sf_idx[0];
    passes := [];
    ghost var start := sf_idx[..];
    while true
      invariant IsStep(qstep) && RateLoop(ics, sf_idx[..], qstep)
      invariant Running(passes, destbits, first, start, sf_idx[..], qstep)
      invariant LeastCounted(ics, zeroes[..], passes, start[0], minscaler)
      decreases qstep, 217 - sf_idx[0]
    {
      ghost var least, before := minscaler, passes;
      var tbits;
      ghost var p;
      tbits, minscaler, p := RatePass(ics, sf_idx, zeroes, scalefactor_bits, destbits, qstep, minscaler);
      passes := before + [p];
      RunOn(before, p, passes, destbits, first, start);
      LeastOn(ics, zeroes[..], before, p, passes, start[0], least, minscaler);
      Halved(qstep);
      qstep := qstep / 2;
      if qstep == 0 && tbits as real > destbits as real * 1.02 && sf_idx[0] < 217 {
        qstep := 1;
      }
      if qstep == 0 {
        break;
      }
    }
  }

  /** What the passes of a run are, written out: the count alone decides between raising and lowering, each scalefactor
      with room to do so moves by exactly the step, the steps halve, and one of 1 is repeated only while the count is
      more than 2 percent over and the first scalefactor can still grow. */
  lemma PassesMean(passes: seq<Pass>, destbits: nat, first: nat, start: seq<int>, end: seq<int>)
    requires Passes(passes, destbits, first, start, end)
    ensures forall i :: 0 <= i < |passes| ==> InTable(passes[i].before) && InTable(passes[i].after)
    ensures forall i :: 0 <= i < |passes| - 1 ==> passes[i + 1].before == passes[i].after
    ensures forall i :: 0 <= i < |passes| - 1 && passes[i].qstep > 1 ==> passes[i + 1].qstep == passes[i].qstep / 2
    ensures forall i :: 0 <= i < |passes| - 1 && passes[i].qstep == 1 ==>
      passes[i + 1].qstep == 1 && passes[i].tbits as real > destbits as real * 1.02 && passes[i].after[0] < 217
    ensures forall i, b :: 0 <= i < |passes| && 0 <= b < 128 && passes[i].tbits > destbits ==>
      var x := passes[i].before[b];
      passes[i].after[b] == if x < 218 - passes[i].qstep then x + passes[i].qstep else x
    ensures forall i, b :: 0 <= i < |passes| && 0 <= b < 128 && passes[i].tbits <= destbits ==>
      var x := passes[i].before[b];
      passes[i].after[b] == if x > 60 - passes[i].qstep then x - passes[i].qstep else x
  {
    forall i | 0 <= i < |passes| - 1
      ensures Follows(passes[i], passes[i + 1], destbits) && GoesOn(passes[i], destbits)
    {
      PassFollows(passes, destbits, first, start, end, i);
    }
  }

  /** The first six passes of the first run have the steps 32, 16, 8, 4, 2 and 1. */
  lemma SixSteps(passes: seq<Pass>, destbits: nat, start: seq<int>, end: seq<int>)
    requires passes != [] && Passes(passes, destbits, 32, start, end) && !GoesOn(passes[|passes| - 1], destbits)
    ensures |passes| >= 6
    ensures passes[0].qstep == 32 && passes[1].qstep == 16 && passes[2].qstep == 8 && passes[3].qstep == 4
    ensures passes[4].qstep == 2 && passes[5].qstep == 1
  {
    PassFollows(passes, destbits, 32, start, end, 0);
    PassFollows(passes, destbits, 32, start, end, 1);
    PassFollows(passes, destbits, 32, start, end, 2);
    PassFollows(passes, destbits, 32, start, end, 3);
    PassFollows(passes, destbits, 32, start, end, 4);
  }

  lemma PassFollows(passes: seq<Pass>, destbits: nat, first: nat, start: seq<int>, end: seq<int>, i: nat)
    requires Passes(passes, destbits, first, start, end) && i + 1 < |passes|
    ensures Follows(passes[i], passes[i + 1], destbits)
  {
    assert Follows(passes[i], passes[i + 1], destbits);
  }

  /** With every count within the budget the first run makes just these six passes, and lowers exactly the scalefactors
      of 122 and above by their sum; pass by pass they are lower by what the steps before it add up to. */
  lemma WithinBudget(passes: seq<Pass>, destbits: nat, start: seq<int>, end: seq<int>, b: nat)
    requires passes != [] && Passes(passes, destbits, 32, start, end) && !GoesOn(passes[|passes| - 1], destbits)
    requires (forall i :: 0 <= i < |passes| ==> passes[i].tbits <= destbits) && b < 128
    ensures |passes| == 6 && |start| == |end| == 128
    ensures end[b] == start[b] - 63 <==> start[b] >= 122
    ensures start[b] >= 122 ==> forall i :: 0 <= i < 6 ==>
      passes[i].before[b] == start[b] - [0, 32, 48, 56, 60, 62][i]
  {
    SixSteps(passes, destbits, start, end);
    if |passes| > 6 {
      PassFollows(passes, destbits, 32, start, end, 5);
      assert false;
    }
    var x0, x1, x2, x3, x4, x5 := start[b], passes[0].after[b], passes[1].after[b], passes[2].after[b],
      passes[3].after[b], passes[4].after[b];
    assert x1 == x0 - (if x0 > 28 then 32 else 0);
    assert x2 == x1 - (if x1 > 44 then 16 else 0);
    assert x3 == x2 - (if x2 > 52 then 8 else 0);
    assert x4 == x3 - (if x3 > 56 then 4 else 0);
    assert x5 == x4 - (if x4 > 58 then 2 else 0);
    assert end[b] == x5 - (if x5 > 59 then 1 else 0);
  }

  /** With the first six counts all over the budget, exactly the scalefactors of 154 and below are raised by as much. */
  lemma OverBudget(passes: seq<Pass>, destbits: nat, start: seq<int>, end: seq<int>, b: nat)
    requires passes != [] && Passes(passes, destbits, 32, start, end) && !GoesOn(passes[|passes| - 1], destbits)
    requires (forall i :: 0 <= i < 6 && i < |passes| ==> passes[i].tbits > destbits) && b < 128
    ensures |passes| >= 6 && |start| == |passes[5].after| == 128
    ensures passes[5].after[b] == start[b] + 63 <==> start[b] <= 154
  {
    SixSteps(passes, destbits, start, end);
    var x0, x1, x2, x3, x4, x5 := start[b], passes[0].after[b], passes[1].after[b], passes[2].after[b],
      passes[3].after[b], passes[4].after[b];
    assert x1 == x0 + (if x0 < 186 then 32 else 0);
    assert x2 == x1 + (if x1 < 202 then 16 else 0);
    assert x3 == x2 + (if x2 < 210 then 8 else 0);
    assert x4 == x3 + (if x3 < 214 then 4 else 0);
    assert x5 == x4 + (if x4 < 216 then 2 else 0);
    assert passes[5].after[b] == x5 + (if x5 < 217 then 1 else 0);
  }

  // ---- The outer loop ----

  function Clip(x: int, low: int, high: int): int {
    if x < low then low else if x > high then high else x
  }

  /** All bands lie in one window of the standard's width, between 60 and 219. */
  ghost predicate Windowed(ics: Ics, sf: seq<int>, low: int)
    requires ValidIcs(ics)
  {
    && InTable(sf) && 60 <= low <= 255 - SCALE_MAX_DIFF
    && Within(ics, sf, low, Top(low))
  }

  lemma WindowedIsReady(ics: Ics, sf: seq<int>, low: int)
    requires ValidIcs(ics) && Windowed(ics, sf, low)
    ensures RateLoop(ics, sf, 1)
  {
  }

  function Top(minscaler: int): int {
    if minscaler + SCALE_MAX_DIFF < 219 then minscaler + SCALE_MAX_DIFF else 219
  }

  /** A band with scalefactor x, made finer by 0, 1 or 2, the last two only above 60, gets sf: that value or, if it is
      outside of the window, the nearest end of the window. */
  ghost predicate BandDone(x: int, finer: nat, sf: int, low: int) {
    && finer <= 2 && (finer > 0 ==> x > 60) && low <= sf <= Top(low)
    && (sf == x - finer || (x - finer < sf && sf == low) || (sf < x - finer && sf == Top(low)))
  }

  ghost predicate BandsDone(ics: Ics, before: seq<int>, finer: seq<nat>, after: seq<int>, low: int)
    requires ValidIcs(ics)
  {
    && InTable(before) && InTable(after) && |finer| == 128
    && forall p :: Visits(ics, 0, p) ==> BandDone(before[p], finer[p], after[p], low)
  }

  /** Bands that are still too distorted get a finer scalefactor; then every band is clipped to the window.  The flag
      says whether a scalefactor has changed. */
  method AdjustBands(ics: Ics, sf_idx: array<int>, band_type: array<nat>, minscaler: int)
    returns (fflag: bool, ghost finer: seq<nat>)
    requires ValidIcs(ics) && InTable(sf_idx[..]) && band_type.Length == 128
    requires 60 <= minscaler <= 255 - SCALE_MAX_DIFF
    modifies sf_idx, band_type
    ensures Windowed(ics, sf_idx[..], minscaler)
    ensures BandsDone(ics, old(sf_idx[..]), finer, sf_idx[..], minscaler)
    ensures fflag <==> exists p :: Visits(ics, 0, p) && sf_idx[p] != old(sf_idx[p])
  {
    fflag := false;
    finer := Bits.Repeat(0, 128);
    var w := 0;
    while w < ics.num_windows
      invariant AtGroup(ics, w) && Reached(ics, w) && |finer| == 128
      invariant forall p :: Visits(ics, 0, p) && !Visits(ics, w, p) ==>
        BandDone(old(sf_idx[p]), finer[p], sf_idx[p], minscaler)
      invariant w < ics.num_windows ==> forall p :: w * 16 <= p < 128 ==> sf_idx[p] == old(sf_idx[p])
      invariant !fflag ==> forall p :: 0 <= p < 128 ==> sf_idx[p] == old(sf_idx[p])
      invariant fflag ==>
        exists p :: Visits(ics, 0, p) && sf_idx[p] != old(sf_idx[p]) && (w < ics.num_windows ==> p < w * 16)
      decreases ics.num_windows - w
    {
      var changed;
      changed, finer := AdjustGroup(ics, sf_idx, band_type, minscaler, w, finer);
      fflag := fflag || changed;
      w := w + ics.group_len[w];
    }
  }

  /** The bands of one group; the rest keeps its scalefactors. */
  method AdjustGroup(ics: Ics, sf_idx: array<int>, band_type: array<nat>, minscaler: int, w: nat,
                     ghost before: seq<nat>)
    returns (changed: bool, ghost finer: seq<nat>)
    requires AtGroup(ics, w) && w < ics.num_windows && sf_idx.Length == band_type.Length == |before| == 128
    requires 60 <= minscaler <= 255 - SCALE_MAX_DIFF
    modifies sf_idx, band_type
    ensures |finer| == 128 && forall p :: OfGroup(ics, w, p) ==>
      0 <= p < 128 && BandDone(old(sf_idx[p]), finer[p], sf_idx[p], minscaler)
    ensures forall p :: 0 <= p < 128 && !OfGroup(ics, w, p) ==> sf_idx[p] == old(sf_idx[p]) && finer[p] == before[p]
    ensures changed <==> exists p :: OfGroup(ics, w, p) && sf_idx[p] != old(sf_idx[p])
  {
    changed, finer := false, before;
    var g := 0;
    while g < ics.num_swb
      invariant 0 <= g <= ics.num_swb && |finer| == 128
      invariant forall p :: w * 16 <= p < w * 16 + g ==> BandDone(old(sf_idx[p]), finer[p], sf_idx[p], minscaler)
      invariant forall p :: 0 <= p < 128 && !(w * 16 <= p < w * 16 + g) ==>
        sf_idx[p] == old(sf_idx[p]) && finer[p] == before[p]
      invariant changed <==> exists p :: w * 16 <= p < w * 16 + g && sf_idx[p] != old(sf_idx[p])
    {
      var k := w * 16 + g;
      var distorted: bool, coarse: bool := *, *;
      var sc;
      ghost var less;
      sc, less := Adjusted(sf_idx[k], distorted, coarse, minscaler);
      if sc != sf_idx[k] {
        changed := true;
      }
      sf_idx[k] := sc;
      finer := finer[k := less];
      var book :| 0 <= book < 12;
      band_type[k] := book;
      g := g + 1;
    }
  }

  /** A band's scalefactor after the adjustment: made finer while too distorted, then clipped. */
  method Adjusted(sf: int, distorted: bool, coarse: bool, minscaler: int) returns (sc: int, ghost finer: nat)
    requires 60 <= minscaler <= 255 - SCALE_MAX_DIFF
    ensures var x := sf - if !distorted || sf <= 60 then 0 else if coarse then 1 else 2;
      sc == if x < minscaler then minscaler else if x > Top(minscaler) then Top(minscaler) else x
    ensures BandDone(sf, finer, sc, minscaler)
    ensures finer == if !distorted || sf <= 60 then 0 else if coarse then 1 else 2
  {
    sc, finer := sf, 0;
    if distorted && sc > 60 {
      if coarse {
        sc, finer := sc - 1, 1;
      } else {
        sc, finer := sc - 2, 2;
      }
    }
    sc := Clip(sc, minscaler, minscaler + SCALE_MAX_DIFF);
    sc := if sc < 219 then sc else 219;
  }

  /** Some band is heard. */
  ghost predicate Heard(ics: Ics, zeroes: seq<bool>)
    requires ValidIcs(ics) && |zeroes| == 128
  {
    exists p :: Visits(ics, 0, p) && !zeroes[p]
  }

  /** Marks the bands that are quiet in every window of their group. */
  method FindZeroes(ics: Ics, zeroes: array<bool>) returns (allz: bool)
    requires ValidIcs(ics) && zeroes.Length == 128
    modifies zeroes
    ensures allz <==> Heard(ics, zeroes[..])
  {
    allz := false;
    var w := 0;
    while w < ics.num_windows
      invariant AtGroup(ics, w) && Reached(ics, w)
      invariant !allz ==> forall p :: Visits(ics, 0, p) && !Visits(ics, w, p) ==> zeroes[p]
      invariant allz ==> exists p :: Visits(ics, 0, p) && !zeroes[p] && (w < ics.num_windows ==> p < w * 16)
      decreases ics.num_windows - w
    {
      var heard := ZeroGroup(ics, zeroes, w);
      allz := allz || heard;
      w := w + ics.group_len[w];
    }
  }

  /** The bands of one group. */
  method ZeroGroup(ics: Ics, zeroes: array<bool>, w: nat) returns (heard: bool)
    requires AtGroup(ics, w) && w < ics.num_windows && zeroes.Length == 128
    modifies zeroes
    ensures !heard ==> forall p :: OfGroup(ics, w, p) ==> 0 <= p < 128 && zeroes[p]
    ensures heard ==> exists p :: OfGroup(ics, w, p) && 0 <= p < 128 && !zeroes[p]
    ensures !heard ==> forall p :: 0 <= p < 128 ==> zeroes[p] || zeroes[p] == old(zeroes[p])
    ensures forall p :: 0 <= p < w * 16 ==> zeroes[p] == old(zeroes[p])
  {
    heard := false;
    ghost var h := 0;
    var g := 0;
    while g < ics.num_swb
      invariant 0 <= g <= ics.num_swb
      invariant !heard ==> forall p :: w * 16 <= p < w * 16 + g ==> zeroes[p]
      invariant heard ==> w * 16 <= h < w * 16 + g && !zeroes[h]
      invariant !heard ==> forall p :: 0 <= p < 128 ==> zeroes[p] || zeroes[p] == old(zeroes[p])
      invariant forall p :: 0 <= p < w * 16 ==> zeroes[p] == old(zeroes[p])
    {
      var k := w * 16 + g;
      var nz := MarkQuiet(ics, zeroes, w, g);
      zeroes[k] := !nz;
      if nz {
        heard, h := true, k;
      }
      g := g + 1;
    }
  }

  /** The windows of a group, for one band: the quiet ones are marked, and whether one is not quiet is returned. */
  method MarkQuiet(ics: Ics, zeroes: array<bool>, w: nat, g: nat) returns (nz: bool)
    requires AtGroup(ics, w) && w < ics.num_windows && g < ics.num_swb && zeroes.Length == 128
    modifies zeroes
    ensures forall p :: 0 <= p < 128 ==> zeroes[p] || zeroes[p] == old(zeroes[p])
    ensures forall p :: 0 <= p < w * 16 + g ==> zeroes[p] == old(zeroes[p])
  {
    nz := false;
    for w2 := 0 to ics.group_len[w]
      invariant forall p :: 0 <= p < 128 ==> zeroes[p] || zeroes[p] == old(zeroes[p])
      invariant forall p :: 0 <= p < w * 16 + g ==> zeroes[p] == old(zeroes[p])
    {
      var quiet: bool := *;
      if quiet {
        GroupFits(ics.group_len, w, ics.num_windows);
        zeroes[(w + w2) * 16 + g] := true;
      } else {
        nz := true;
      }
    }
  }

  lemma GroupFits(group_len: seq<nat>, w: nat, n: nat)
    requires n <= |group_len| && Groups(group_len, w, n) && w < n
    ensures w + group_len[w] <= n
  {
  }

  /** The scalefactors the search starts from: 140, plus at most 59 for a band that is not zero. */
  method InitialScalefactors(ics: Ics, sf_idx: array<int>, zeroes: array<bool>) returns (allz: bool)
    requires ValidIcs(ics) && sf_idx.Length == 128 && zeroes.Length == 128
    modifies sf_idx, zeroes
    ensures allz <==> Heard(ics, zeroes[..])
    ensures Starting(ics, sf_idx[..], zeroes[..])
  {
    allz := FindZeroes(ics, zeroes);
    ghost var zs := zeroes[..];
    var w := 0;
    while w < ics.num_windows
      invariant AtGroup(ics, w) && zeroes[..] == zs
      invariant forall p :: Visits(ics, 0, p) && !Visits(ics, w, p) ==>
        SCALE_ONE_POS <= sf_idx[p] <= SCALE_ONE_POS + (if zeroes[p] then 0 else 59)
      decreases ics.num_windows - w
    {
      StartGroup(ics, sf_idx, zeroes, w);
      w := w + ics.group_len[w];
    }
  }

  /** A band that is not heard starts at 140, any other one at 140 to 199. */
  ghost predicate Starting(ics: Ics, sf: seq<int>, zeroes: seq<bool>)
    requires ValidIcs(ics) && |zeroes| == 128
  {
    InTable(sf) && forall p :: Visits(ics, 0, p) ==> 140 <= sf[p] <= (if zeroes[p] then 140 else 199)
  }

  /** The bands of one group; the rest keeps its scalefactors. */
  method StartGroup(ics: Ics, sf_idx: array<int>, zeroes: array<bool>, w: nat)
    requires AtGroup(ics, w) && w < ics.num_windows && sf_idx.Length == zeroes.Length == 128
    modifies sf_idx
    ensures forall p :: OfGroup(ics, w, p) ==>
      0 <= p < 128 && SCALE_ONE_POS <= sf_idx[p] <= SCALE_ONE_POS + (if zeroes[p] then 0 else 59)
    ensures forall p :: 0 <= p < 128 && !OfGroup(ics, w, p) ==> sf_idx[p] == old(sf_idx[p])
  {
    var g := 0;
    while g < ics.num_swb
      invariant 0 <= g <= ics.num_swb
      invariant forall p :: w * 16 <= p < w * 16 + g ==>
        SCALE_ONE_POS <= sf_idx[p] <= SCALE_ONE_POS + (if zeroes[p] then 0 else 59)
      invariant forall p :: 0 <= p < 128 && !(w * 16 <= p < w * 16 + g) ==> sf_idx[p] == old(sf_idx[p])
    {
      var k := w * 16 + g;
      if zeroes[k] {
        sf_idx[k] := SCALE_ONE_POS;
      } else {
        var level :| 0 <= level <= 59;
        sf_idx[k] := SCALE_ONE_POS + level;
      }
      g := g + 1;
    }
  }

  /** One round of the outer loop: the passes of its inner loop, the least scalefactor they counted, the window, what
      the bands were made finer by, and the scalefactors at its end. */
  datatype Round = Round(passes: seq<Pass>, least: int, low: int, finer: seq<nat>, after: seq<int>)

  ghost predicate RoundDone(ics: Ics, zeroes: seq<bool>, destbits: nat, first: nat, start: seq<int>, r: Round)
    requires ValidIcs(ics) && |zeroes| == 128
  {
    && InTable(start) && r.passes != []
    && var last := r.passes[|r.passes| - 1];
    && Passes(r.passes, destbits, first, start, last.after) && !GoesOn(last, destbits)
    && LeastCounted(ics, zeroes, r.passes, start[0], r.least)
    && 60 <= r.low <= 195 && (r.low == r.least || (r.least < r.low == 60) || (r.least > r.low == 195))
    && BandsDone(ics, last.after, r.finer, r.after, r.low)
  }

  /** The round has changed a scalefactor after its inner loop. */
  ghost predicate Changes(ics: Ics, r: Round)
    requires ValidIcs(ics)
  {
    && r.passes != [] && InTable(r.passes[|r.passes| - 1].after) && InTable(r.after)
    && exists p :: Visits(ics, 0, p) && r.after[p] != r.passes[|r.passes| - 1].after[p]
  }

  /** The rounds so far, from the scalefactors start to those in end; all but the last have changed a scalefactor. */
  ghost predicate Rounds(ics: Ics, zeroes: seq<bool>, destbits: nat, start: seq<int>, rounds: seq<Round>, end: seq<int>)
    requires ValidIcs(ics) && |zeroes| == 128
    decreases |rounds|
  {
    if rounds == [] then start == end
    else
      var n := |rounds| - 1;
      && rounds[n].after == end && (n > 0 ==> Changes(ics, rounds[n - 1]))
      && var before := if n == 0 then start else rounds[n - 1].after;
      && Rounds(ics, zeroes, destbits, start, rounds[..n], before)
      && RoundDone(ics, zeroes, destbits, if n == 0 then 32 else 1, before, rounds[n])
  }

  /** One round of the outer loop. */
  method SearchRound(ics: Ics, sf_idx: array<int>, zeroes: array<bool>, band_type: array<nat>,
                     scalefactor_bits: seq<nat>, destbits: nat, first: nat) returns (fflag: bool, ghost r: Round)
    requires ValidIcs(ics) && sf_idx.Length == zeroes.Length == band_type.Length == 128 && |scalefactor_bits| == 121
    requires RateLoop(ics, sf_idx[..], first) && IsStep(first)
    modifies sf_idx, band_type
    ensures RoundDone(ics, zeroes[..], destbits, first, old(sf_idx[..]), r) && r.after == sf_idx[..]
    ensures Windowed(ics, sf_idx[..], r.low)
    ensures fflag <==> Changes(ics, r)
  {
    ghost var start := sf_idx[..];
    var minscaler;
    ghost var passes, finer;
    minscaler, passes := InnerLoop(ics, sf_idx, zeroes, scalefactor_bits, destbits, first);
    ghost var least, end := minscaler, sf_idx[..];
    minscaler := Clip(minscaler, 60, 255 - SCALE_MAX_DIFF);
    fflag, finer := AdjustBands(ics, sf_idx, band_type, minscaler);
    r := Round(passes, least, minscaler, finer, sf_idx[..]);
  }

  /** The two-loop search.  On return all bands lie in one window of 60, whatever the costs were.  Without a band that
      is heard there is no round; else there are rounds until one changes nothing behind its inner loop, or ten. */
  method SearchForQuantizers(ics: Ics, sf_idx: array<int>, zeroes: array<bool>, band_type: array<nat>,
                             scalefactor_bits: seq<nat>, destbits: nat)
    returns (ghost low: int, ghost start: seq<int>, ghost rounds: seq<Round>)
    requires ValidIcs(ics) && sf_idx.Length == zeroes.Length == band_type.Length == 128 && |scalefactor_bits| == 121
    modifies sf_idx, zeroes, band_type
    ensures Windowed(ics, sf_idx[..], low)
    ensures Starting(ics, start, zeroes[..]) && (rounds != [] <==> Heard(ics, zeroes[..]))
    ensures Rounds(ics, zeroes[..], destbits, start, rounds, sf_idx[..]) && |rounds| <= 10
    ensures 0 < |rounds| < 10 ==> !Changes(ics, rounds[|rounds| - 1])
  {
    var allz := InitialScalefactors(ics, sf_idx, zeroes);
    low, start, rounds := SCALE_ONE_POS, sf_idx[..], [];
    if allz {
      StartingIsReady(ics, start, zeroes[..]);
      low, rounds := SearchRounds(ics, sf_idx, zeroes, band_type, scalefactor_bits, destbits);
    } else {
      StartingIsWindowed(ics, start, zeroes[..]);
    }
  }

  lemma StartingIsReady(ics: Ics, sf: seq<int>, zeroes: seq<bool>)
    requires ValidIcs(ics) && |zeroes| == 128 && Starting(ics, sf, zeroes)
    ensures RateLoop(ics, sf, 32)
  {
  }

  lemma StartingIsWindowed(ics: Ics, sf: seq<int>, zeroes: seq<bool>)
    requires ValidIcs(ics) && |zeroes| == 128 && Starting(ics, sf, zeroes) && !Heard(ics, zeroes)
    ensures Windowed(ics, sf, SCALE_ONE_POS)
  {
  }

  /** The rounds of the outer loop. */
  method SearchRounds(ics: Ics, sf_idx: array<int>, zeroes: array<bool>, band_type: array<nat>,
                      scalefactor_bits: seq<nat>, destbits: nat)
    returns (ghost low: int, ghost rounds: seq<Round>)
    requires ValidIcs(ics) && sf_idx.Length == zeroes.Length == band_type.Length == 128 && |scalefactor_bits| == 121
    requires RateLoop(ics, sf_idx[..], 32)
    modifies sf_idx, band_type
    ensures Windowed(ics, sf_idx[..], low)
    ensures Rounds(ics, zeroes[..], destbits, old(sf_idx[..]), rounds, sf_idx[..]) && 0 < |rounds| <= 10
    ensures |rounds| < 10 ==> !Changes(ics, rounds[|rounds| - 1])
  {
    low, rounds := SCALE_ONE_POS, [];
    ghost var start, zs := sf_idx[..], zeroes[..];
    var its := 0;
    while true
      invariant 0 <= its < 10 && |rounds| == its
      invariant SearchGoing(ics, zs, destbits, start, rounds, sf_idx[..])
      decreases 10 - its
    {
      var fflag;
      ghost var r;
      ghost var before, done := sf_idx[..], rounds;
      fflag, r := SearchRound(ics, sf_idx, zeroes, band_type, scalefactor_bits, destbits, if its == 0 then 32 else 1);
      low, rounds := r.low, done + [r];
      RoundsOn(ics, zs, destbits, start, done, before, r, rounds, sf_idx[..]);
      its := its + 1;
      if !(fflag && its < 10) {
        break;
      }
    }
  }

  /** The rounds so far lead to the scalefactors sf, and a further one follows. */
  ghost predicate SearchGoing(ics: Ics, zeroes: seq<bool>, destbits: nat, start: seq<int>, rounds: seq<Round>,
                              sf: seq<int>)
    requires ValidIcs(ics) && |zeroes| == 128
  {
    && Rounds(ics, zeroes, destbits, start, rounds, sf) && RateLoop(ics, sf, if rounds == [] then 32 else 1)
    && (rounds != [] ==> Changes(ics, rounds[|rounds| - 1]))
  }

  lemma RoundsOn(ics: Ics, zeroes: seq<bool>, destbits: nat, start: seq<int>, rounds: seq<Round>, before: seq<int>,
                 r: Round, on: seq<Round>, end: seq<int>)
    requires ValidIcs(ics) && |zeroes| == 128 && SearchGoing(ics, zeroes, destbits, start, rounds, before)
    requires RoundDone(ics, zeroes, destbits, if rounds == [] then 32 else 1, before, r)
    requires on == rounds + [r] && end == r.after && Windowed(ics, end, r.low)
    ensures Rounds(ics, zeroes, destbits, start, on, end)
    ensures Changes(ics, r) ==> SearchGoing(ics, zeroes, destbits, start, on, end)
  {
    assert on[..|rounds|] == rounds;
    WindowedIsReady(ics, end, r.low);
  }

  // ---- Spare bits are spent ----

  /** No count of the round is over the budget, and no band is made finer. */
  ghost predicate Untroubled(ics: Ics, r: Round, destbits: nat)
    requires ValidIcs(ics)
  {
    && (forall i :: 0 <= i < |r.passes| ==> r.passes[i].tbits <= destbits)
    && |r.finer| == 128 && forall p :: Visits(ics, 0, p) ==> r.finer[p] == 0
  }

  /** Band h is a band that is heard, and none that is heard starts below it. */
  ghost predicate LeastHeard(ics: Ics, start: seq<int>, zeroes: seq<bool>, h: nat)
    requires ValidIcs(ics) && |zeroes| == 128
  {
    && Starting(ics, start, zeroes) && Visits(ics, 0, h) && !zeroes[h]
    && forall p :: Visits(ics, 0, p) && !zeroes[p] ==> start[h] <= start[p]
  }

  /** After n rounds of a search in which all goes well a band that started at x has come down by 62 and one more each
      round, but not below the lowest band less 62. */
  function Settled(x: int, lowest: int, n: nat): int {
    if x - 62 - n < lowest - 62 then lowest - 62 else x - 62 - n
  }

  ghost predicate AllSettled(ics: Ics, start: seq<int>, h: nat, n: nat, sf: seq<int>)
    requires ValidIcs(ics) && h < 128
  {
    InTable(start) && InTable(sf) && forall p :: Visits(ics, 0, p) ==> sf[p] == Settled(start[p], start[h], n)
  }

  lemma FirstRound(ics: Ics, zeroes: seq<bool>, destbits: nat, start: seq<int>, r: Round, h: nat)
    requires ValidIcs(ics) && |zeroes| == 128 && LeastHeard(ics, start, zeroes, h)
    requires RoundDone(ics, zeroes, destbits, 32, start, r) && Untroubled(ics, r, destbits)
    ensures AllSettled(ics, start, h, 1, r.after) && Changes(ics, r)
  {
    var end := r.passes[|r.passes| - 1].after;
    forall p | Visits(ics, 0, p)
      ensures |r.passes| == 6 && end[p] == start[p] - 63
      ensures forall i :: 0 <= i < 6 ==> r.passes[i].before[p] == start[p] - [0, 32, 48, 56, 60, 62][i]
    {
      WithinBudget(r.passes, destbits, start, end, p);
    }
    assert Visits(ics, 0, 0);
    assert Counts(ics, zeroes, r.passes[5], h);
    assert r.least == start[h] - 62;
    assert r.after[h] == end[h] + 1;
  }

  /** In a round that starts at step 1 and is within the budget every scalefactor above 59 goes down by 1. */
  lemma OnePass(passes: seq<Pass>, destbits: nat, start: seq<int>, end: seq<int>, b: nat)
    requires passes != [] && Passes(passes, destbits, 1, start, end) && !GoesOn(passes[|passes| - 1], destbits)
    requires (forall i :: 0 <= i < |passes| ==> passes[i].tbits <= destbits) && b < 128
    ensures |passes| == 1 && |start| == |end| == 128 && (start[b] > 59 ==> end[b] == start[b] - 1)
  {
    if |passes| > 1 {
      PassFollows(passes, destbits, 1, start, end, 0);
      assert false;
    }
  }

  lemma LaterRound(ics: Ics, zeroes: seq<bool>, destbits: nat, start: seq<int>, n: nat, before: seq<int>, r: Round,
                   h: nat)
    requires ValidIcs(ics) && |zeroes| == 128 && LeastHeard(ics, start, zeroes, h)
    requires AllSettled(ics, start, h, n, before) && n > 0
    requires RoundDone(ics, zeroes, destbits, 1, before, r) && Untroubled(ics, r, destbits)
    ensures AllSettled(ics, start, h, n + 1, r.after) && Changes(ics, r)
  {
    var end := r.passes[|r.passes| - 1].after;
    forall p | Visits(ics, 0, p) ensures |r.passes| == 1 && end[p] == before[p] - 1 {
      OnePass(r.passes, destbits, before, end, p);
    }
    assert Visits(ics, 0, 0);
    assert Counts(ics, zeroes, r.passes[0], h);
    assert r.least == start[h] - 62;
    assert r.after[h] == end[h] + 1;
  }

  lemma {:induction false} AllRounds(ics: Ics, zeroes: seq<bool>, destbits: nat, start: seq<int>, rounds: seq<Round>,
                                     end: seq<int>, h: nat)
    requires ValidIcs(ics) && |zeroes| == 128 && LeastHeard(ics, start, zeroes, h) && rounds != []
    requires Rounds(ics, zeroes, destbits, start, rounds, end)
    requires forall k :: 0 <= k < |rounds| ==> Untroubled(ics, rounds[k], destbits)
    ensures AllSettled(ics, start, h, |rounds|, end) && Changes(ics, rounds[|rounds| - 1])
    decreases |rounds|
  {
    var n := |rounds| - 1;
    if n == 0 {
      FirstRound(ics, zeroes, destbits, start, rounds[0], h);
    } else {
      AllRounds(ics, zeroes, destbits, start, rounds[..n], rounds[n - 1].after, h);
      LaterRound(ics, zeroes, destbits, start, n, rounds[n - 1].after, rounds[n], h);
    }
  }

  /** A search whose counts all stay within the budget and in which no band is too distorted makes all ten rounds, and
      spends spare bits down to the window: each band ends 72 below its start, or 62 below the lowest band that is heard
      if that is higher. */
  lemma SpareBitsSpent(ics: Ics, zeroes: seq<bool>, destbits: nat, start: seq<int>, rounds: seq<Round>, end: seq<int>,
                       h: nat)
    requires ValidIcs(ics) && |zeroes| == 128 && LeastHeard(ics, start, zeroes, h)
    requires Rounds(ics, zeroes, destbits, start, rounds, end) && 0 < |rounds| <= 10
    requires |rounds| < 10 ==> !Changes(ics, rounds[|rounds| - 1])
    requires forall k :: 0 <= k < |rounds| ==> Untroubled(ics, rounds[k], destbits)
    ensures |rounds| == 10
    ensures forall p :: Visits(ics, 0, p) ==>
      end[p] == if start[p] - 72 < start[h] - 62 then start[h] - 62 else start[p] - 72
  {
    AllRounds(ics, zeroes, destbits, start, rounds, end, h);
  }

  // ---- The writer ----

  /** The differences encode_scale_factors codes for the bands of the groups from w on, in order, given the last value
      written. */
  ghost function Differences(ics: Ics, sf: seq<int>, zeroes: seq<bool>, max_sfb: nat, w: nat, g: nat,
                             off: int): seq<int>
    requires AtGroup(ics, w) && |sf| == |zeroes| == 128 && g <= max_sfb <= ics.num_swb
    decreases ics.num_windows - w, max_sfb - g
  {
    if w >= ics.num_windows then []
    else if g == max_sfb then Differences(ics, sf, zeroes, max_sfb, w + ics.group_len[w], 0, off)
    else if zeroes[w * 16 + g] then Differences(ics, sf, zeroes, max_sfb, w, g + 1, off)
    else [sf[w * 16 + g] - off + SCALE_DIFF_ZERO] + Differences(ics, sf, zeroes, max_sfb, w, g + 1, sf[w * 16 + g])
  }

  /** The scalefactors a decoder recovers by adding up the differences from the global gain (section 4.6.2 of ISO/IEC
      14496-3). */
  function Accumulate(off: int, diffs: seq<int>): seq<int>
    decreases |diffs|
  {
    if diffs == [] then []
    else [off + diffs[0] - SCALE_DIFF_ZERO] + Accumulate(off + diffs[0] - SCALE_DIFF_ZERO, diffs[1..])
  }

  /** The scalefactors of the bands that are not zero, in the order they are written. */
  ghost function Coded(ics: Ics, sf: seq<int>, zeroes: seq<bool>, max_sfb: nat, w: nat, g: nat): seq<int>
    requires AtGroup(ics, w) && |sf| == |zeroes| == 128 && g <= max_sfb <= ics.num_swb
    decreases ics.num_windows - w, max_sfb - g
  {
    if w >= ics.num_windows then []
    else if g == max_sfb then Coded(ics, sf, zeroes, max_sfb, w + ics.group_len[w], 0)
    else if zeroes[w * 16 + g] then Coded(ics, sf, zeroes, max_sfb, w, g + 1)
    else [sf[w * 16 + g]] + Coded(ics, sf, zeroes, max_sfb, w, g + 1)
  }

  /** Of a group the bands that are not zero contribute their scalefactors up to max_sfb, in order; those of the next
      group follow. */
  lemma CodedBand(ics: Ics, sf: seq<int>, zeroes: seq<bool>, max_sfb: nat, w: nat, g: nat, next: nat, p: nat)
    requires AtGroup(ics, w) && |sf| == |zeroes| == 128 && g < max_sfb <= ics.num_swb && w < ics.num_windows
    requires next == g + 1 && p == w * 16 + g
    ensures Coded(ics, sf, zeroes, max_sfb, w, g)
         == if zeroes[p] then Coded(ics, sf, zeroes, max_sfb, w, next)
            else [sf[p]] + Coded(ics, sf, zeroes, max_sfb, w, next)
  {
  }

  /** A group without a zero band contributes all its scalefactors up to max_sfb. */
  lemma {:induction false} GroupIsCoded(ics: Ics, sf: seq<int>, zeroes: seq<bool>, max_sfb: nat, w: nat, w': nat,
                                        g: nat, from: nat, to: nat)
    requires AtGroup(ics, w) && |sf| == |zeroes| == 128 && g <= max_sfb <= ics.num_swb && w < ics.num_windows
    requires from == w * 16 + g && to == w * 16 + max_sfb <= 128 && forall k :: from <= k < to ==> !zeroes[k]
    requires w' == w + ics.group_len[w]
    ensures AtGroup(ics, w')
    ensures Coded(ics, sf, zeroes, max_sfb, w, g) == sf[from..to] + Coded(ics, sf, zeroes, max_sfb, w', 0)
    decreases max_sfb - g
  {
    if max_sfb <= g {
      assert sf[from..to] == [];
    } else {
      var next, after := g + 1, from + 1;
      CodedBand(ics, sf, zeroes, max_sfb, w, g, next, from);
      GroupIsCoded(ics, sf, zeroes, max_sfb, w, w', next, after, to);
      var rest := Coded(ics, sf, zeroes, max_sfb, w, next);
      assert sf[from..to] == [sf[from]] + sf[after..to];
      Bits.Regrouped([sf[from]], sf[after..to], Coded(ics, sf, zeroes, max_sfb, w', 0), rest);
    }
  }

  lemma {:induction false} DifferencesDecode(ics: Ics, sf: seq<int>, zeroes: seq<bool>, max_sfb: nat, w: nat, g: nat,
                                             off: int)
    requires AtGroup(ics, w) && |sf| == |zeroes| == 128 && g <= max_sfb <= ics.num_swb
    ensures Accumulate(off, Differences(ics, sf, zeroes, max_sfb, w, g, off)) == Coded(ics, sf, zeroes, max_sfb, w, g)
    decreases ics.num_windows - w, max_sfb - g
  {
    if ics.num_windows <= w {
    } else if g == max_sfb {
      var w' := w + ics.group_len[w];
      NextGroup(ics, sf, zeroes, max_sfb, w, w', off);
      DifferencesDecode(ics, sf, zeroes, max_sfb, w', 0, off);
    } else {
      var next, p := g + 1, w * 16 + g;
      OneDifference(ics, sf, zeroes, max_sfb, w, g, next, p, off);
      CodedBand(ics, sf, zeroes, max_sfb, w, g, next, p);
      if zeroes[p] {
        DifferencesDecode(ics, sf, zeroes, max_sfb, w, next, off);
      } else {
        var x := sf[p];
        DifferencesDecode(ics, sf, zeroes, max_sfb, w, next, x);
        AccumulateFirst(off, x, Differences(ics, sf, zeroes, max_sfb, w, next, x));
      }
    }
  }

  /** What the band between g and next adds to the differences. */
  lemma OneDifference(ics: Ics, sf: seq<int>, zeroes: seq<bool>, max_sfb: nat, w: nat, g: nat, next: nat, p: nat,
                      off: int)
    requires AtGroup(ics, w) && |sf| == |zeroes| == 128 && g < max_sfb <= ics.num_swb && w < ics.num_windows
    requires next == g + 1 && p == w * 16 + g
    ensures Differences(ics, sf, zeroes, max_sfb, w, g, off)
         == if zeroes[p] then Differences(ics, sf, zeroes, max_sfb, w, next, off)
            else [sf[p] - off + SCALE_DIFF_ZERO] + Differences(ics, sf, zeroes, max_sfb, w, next, sf[p])
  {
  }

  lemma NextGroup(ics: Ics, sf: seq<int>, zeroes: seq<bool>, max_sfb: nat, w: nat, w': nat, off: int)
    requires AtGroup(ics, w) && |sf| == |zeroes| == 128 && max_sfb <= ics.num_swb && w < ics.num_windows
    requires w' == w + ics.group_len[w]
    ensures AtGroup(ics, w')
    ensures Differences(ics, sf, zeroes, max_sfb, w, max_sfb, off) == Differences(ics, sf, zeroes, max_sfb, w', 0, off)
    ensures Coded(ics, sf, zeroes, max_sfb, w, max_sfb) == Coded(ics, sf, zeroes, max_sfb, w', 0)
  {
  }

  lemma AccumulateFirst(off: int, x: int, rest: seq<int>)
    ensures Accumulate(off, [x - off + SCALE_DIFF_ZERO] + rest) == [x] + Accumulate(x, rest)
  {
    assert ([x - off + SCALE_DIFF_ZERO] + rest)[1..] == rest;
  }

  /** The differences of one group, and the last value written. */
  method EncodeGroup(ics: Ics, sf_idx: array<int>, zeroes: array<bool>, max_sfb: nat, w: nat, off0: int, ghost low: int)
    returns (diffs: seq<int>, off: int, w': nat)
    requires ValidIcs(ics) && sf_idx.Length == zeroes.Length == 128 && max_sfb <= ics.num_swb && w < ics.num_windows
    requires AtGroup(ics, w)
    requires low <= off0 <= low + SCALE_MAX_DIFF
    requires w * 16 + max_sfb <= 128
    requires forall p :: w * 16 <= p < w * 16 + max_sfb ==> low <= sf_idx[p] <= low + SCALE_MAX_DIFF
    ensures low <= off <= low + SCALE_MAX_DIFF
    ensures forall k :: 0 <= k < |diffs| ==> 0 <= diffs[k] <= 120
    ensures w' == w + ics.group_len[w]
    ensures Differences(ics, sf_idx[..], zeroes[..], max_sfb, w, 0, off0)
         == diffs + Differences(ics, sf_idx[..], zeroes[..], max_sfb, w', 0, off)
  {
    diffs, off := [], off0;
    ghost var sf, zs := sf_idx[..], zeroes[..];
    ghost var goal := Differences(ics, sf, zs, max_sfb, w, 0, off0);
    var i := 0;
    while i < max_sfb
      invariant 0 <= i <= max_sfb && low <= off <= low + SCALE_MAX_DIFF
      invariant forall k :: 0 <= k < |diffs| ==> 0 <= diffs[k] <= 120
      invariant diffs + Differences(ics, sf, zs, max_sfb, w, i, off) == goal
    {
      ghost var g, diffs0, off1 := i, diffs, off;
      assert low <= sf_idx[w * 16 + i] <= low + SCALE_MAX_DIFF;
      diffs, off, i := EncodeBand(sf_idx, zeroes, w * 16 + i, i, diffs, off);
      DifferencesOn(ics, sf, zs, max_sfb, w, g, i, w * 16 + g, diffs0, off1, diffs, off);
    }
    w' := w + ics.group_len[w];
    NextGroup(ics, sf, zs, max_sfb, w, w', off);
  }

  /** One band of a group: its difference, unless it is zero. */
  method EncodeBand(sf_idx: array<int>, zeroes: array<bool>, p: nat, i: nat, diffs0: seq<int>, off0: int)
    returns (diffs: seq<int>, off: int, next: nat)
    requires sf_idx.Length == zeroes.Length == 128 && p < 128
    ensures zeroes[p] ==> diffs == diffs0 && off == off0
    ensures !zeroes[p] ==> diffs == diffs0 + [sf_idx[p] - off0 + SCALE_DIFF_ZERO] && off == sf_idx[p]
    ensures next == i + 1
  {
    diffs, off, next := diffs0, off0, i + 1;
    if !zeroes[p] {
      var diff := sf_idx[p] - off + SCALE_DIFF_ZERO;
      off := sf_idx[p];
      diffs := diffs + [diff];
    }
  }

  /** The differences so far and those to come stay the same together. */
  lemma DifferencesOn(ics: Ics, sf: seq<int>, zeroes: seq<bool>, max_sfb: nat, w: nat, g: nat, next: nat, p: nat,
                      diffs0: seq<int>, off0: int, diffs: seq<int>, off: int)
    requires AtGroup(ics, w) && |sf| == |zeroes| == 128 && g < max_sfb <= ics.num_swb && w < ics.num_windows
    requires next == g + 1 && p == w * 16 + g
    requires zeroes[p] ==> diffs == diffs0 && off == off0
    requires !zeroes[p] ==> diffs == diffs0 + [sf[p] - off0 + SCALE_DIFF_ZERO] && off == sf[p]
    ensures diffs + Differences(ics, sf, zeroes, max_sfb, w, next, off)
         == diffs0 + Differences(ics, sf, zeroes, max_sfb, w, g, off0)
  {
    OneDifference(ics, sf, zeroes, max_sfb, w, g, next, p, off0);
    if !zeroes[p] {
      var here := Differences(ics, sf, zeroes, max_sfb, w, g, off0);
      var there := Differences(ics, sf, zeroes, max_sfb, w, next, off);
      Bits.Regrouped(diffs0, [sf[p] - off0 + SCALE_DIFF_ZERO], there, here);
    }
  }

  /** The writer's loop; given the search's window every difference is a codable index. */
  method EncodeScaleFactors(ics: Ics, sf_idx: array<int>, zeroes: array<bool>, max_sfb: nat, ghost low: int)
    returns (diffs: seq<int>)
    requires ValidIcs(ics) && sf_idx.Length == zeroes.Length == 128 && max_sfb <= ics.num_swb
    requires Windowed(ics, sf_idx[..], low)
    ensures forall k :: 0 <= k < |diffs| ==> 0 <= diffs[k] <= 120
    ensures diffs == Differences(ics, sf_idx[..], zeroes[..], max_sfb, 0, 0, sf_idx[0])
    ensures Accumulate(sf_idx[0], diffs) == Coded(ics, sf_idx[..], zeroes[..], max_sfb, 0, 0)
  {
    diffs := [];
    var off := sf_idx[0];
    assert Visits(ics, 0, 0);
    ghost var sf, zs := sf_idx[..], zeroes[..];
    ghost var goal := Differences(ics, sf, zs, max_sfb, 0, 0, off);
    var w := 0;
    while w < ics.num_windows
      invariant AtGroup(ics, w) && Reached(ics, w) && low <= off <= low + SCALE_MAX_DIFF
      invariant forall k :: 0 <= k < |diffs| ==> 0 <= diffs[k] <= 120
      invariant diffs + Differences(ics, sf, zs, max_sfb, w, 0, off) == goal
      decreases ics.num_windows - w
    {
      assert forall p :: w * 16 <= p < w * 16 + max_sfb ==> Visits(ics, w, p);
      var more;
      ghost var u, here := w, Differences(ics, sf, zs, max_sfb, w, 0, off);
      more, off, w := EncodeGroup(ics, sf_idx, zeroes, max_sfb, w, off, low);
      ghost var there := Differences(ics, sf, zs, max_sfb, w, 0, off);
      Bits.Regrouped(diffs, more, there, here);
      ReachedNext(ics, u, w);
      diffs := diffs + more;
    }
    DifferencesDecode(ics, sf, zs, max_sfb, 0, 0, sf_idx[0]);
  }
}
