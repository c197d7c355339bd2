// Choosing the input stream of every output stream in transcode of ffmpeg.c: the search for a threshold on the number
// of frames seen while probing, one bit at a time, and the assignment that uses it.
module StreamSelection {
  import opened Bits

  /** The number of media types; the types themselves are numbers below it. */
  const TYPES := 5

  type MediaType = t: nat | t < TYPES

  /** What is known of an input stream: its type, the frames seen while probing it, whether everything of it is thrown
      away, and whether it belongs to the program asked for. */
  datatype Input = Input(kind: MediaType, frames: nat, discardAll: bool, inProgram: bool)

  /** programId: does the user ask for one program only? */
  datatype Job = Job(inputs: seq<Input>, outputs: seq<MediaType>, programId: bool)
  {
    /** May input i serve an output of this type? free is the discard flag of every input, set until an output uses
        it. */
    predicate Eligible(free: seq<bool>, i: nat, kind: MediaType, threshold: int)
      requires |free| == |inputs| && i < |inputs|
    {
      && free[i] && !inputs[i].discardAll && (programId ==> inputs[i].inProgram)
      && inputs[i].kind == kind && threshold <= inputs[i].frames
    }

    /** How many of the first n inputs may. */
    function CountTo(free: seq<bool>, kind: MediaType, threshold: int, n: nat): (r: nat)
      requires |free| == |inputs| && n <= |inputs|
      ensures r <= n
    {
      if n == 0 then 0
      else CountTo(free, kind, threshold, n - 1) + (if Eligible(free, n - 1, kind, threshold) then 1 else 0)
    }

    function Count(free: seq<bool>, kind: MediaType, threshold: int): (r: nat)
      requires |free| == |inputs|
    {
      CountTo(free, kind, threshold, |inputs|)
    }

    /** How many of the first n outputs are of this type. */
    function Wanted(kind: MediaType, n: nat): (r: nat)
      requires n <= |outputs|
      ensures r <= n
    {
      if n == 0 then 0 else Wanted(kind, n - 1) + (if outputs[n - 1] == kind then 1 else 0)
    }

    function Need(kind: MediaType): nat {
      Wanted(kind, |outputs|)
    }

    /** The largest threshold below 2^31 that as many inputs meet as there are outputs, or 0 when none is. */
    ghost predicate IsThreshold(free: seq<bool>, kind: MediaType, t: int)
      requires |free| == |inputs|
    {
      && 0 <= t < 0x8000_0000
      && (t == 0 || Need(kind) <= Count(free, kind, t))
      && forall u :: t < u < 0x8000_0000 ==> Count(free, kind, u) < Need(kind)
    }

    lemma {:induction false} CountAntitone(free: seq<bool>, kind: MediaType, t: int, u: int, n: nat)
      requires |free| == |inputs| && n <= |inputs| && t <= u
      ensures CountTo(free, kind, u, n) <= CountTo(free, kind, t, n)
    {
      if n == 0 {
      } else {
        CountAntitone(free, kind, t, u, n - 1);
      }
    }

    /** Taking an eligible input leaves one less of its type and as many of the others. */
    lemma {:induction false} CountTaken(free: seq<bool>, i: nat, kind: MediaType, t: int, n: nat)
      requires |free| == |inputs| && i < |inputs| && n <= |inputs|
      ensures CountTo(free[i := false], kind, t, n)
         == CountTo(free, kind, t, n) - (if i < n && Eligible(free, i, kind, t) then 1 else 0)
    {
      if n == 0 {
      } else {
        CountTaken(free, i, kind, t, n - 1);
      }
    }

    lemma {:induction false} CountSome(free: seq<bool>, kind: MediaType, t: int, n: nat) returns (i: nat)
      requires |free| == |inputs| && n <= |inputs| && 0 < CountTo(free, kind, t, n)
      ensures i < n && Eligible(free, i, kind, t)
    {
      if Eligible(free, n - 1, kind, t) {
        i := n - 1;
      } else {
        i := CountSome(free, kind, t, n - 1);
      }
    }

    lemma {:induction false} CountNone(free: seq<bool>, kind: MediaType, t: int, n: nat)
      requires |free| == |inputs| && n <= |inputs|
      requires forall i :: 0 <= i < n ==> !Eligible(free, i, kind, t)
      ensures CountTo(free, kind, t, n) == 0
    {
      if n == 0 {
      } else {
        CountNone(free, kind, t, n - 1);
      }
    }

    lemma {:induction false} WantedGrows(kind: MediaType, m: nat, n: nat)
      requires m <= n <= |outputs|
      ensures Wanted(kind, m) <= Wanted(kind, n)
      decreases n - m
    {
      if n <= m {
      } else {
        WantedGrows(kind, m, n - 1);
      }
    }
  }

  // The search

  /** One more bit of every threshold tried: what is known when all thresholds may still grow by less than w. */
  ghost predicate SearchedTo(job: Job, free: seq<bool>, t: seq<int>, w: nat)
    requires |free| == |job.inputs| && |t| == TYPES
  {
    forall j: MediaType :: SearchedAt(job, free, j, t[j], w)
  }

  ghost predicate SearchedAt(job: Job, free: seq<bool>, j: MediaType, t: int, w: nat)
    requires |free| == |job.inputs|
  {
    && 0 <= t && t + w <= 0x8000_0000
    && (t == 0 || job.Need(j) <= job.Count(free, j, t))
    && forall u :: t + w <= u < 0x8000_0000 ==> job.Count(free, j, u) < job.Need(j)
  }

  lemma BitTried(job: Job, free: seq<bool>, j: MediaType, t: int, w: nat, step: nat)
    requires |free| == |job.inputs| && SearchedAt(job, free, j, t, w) && w == 2 * step
    ensures SearchedAt(job, free, j, if job.Count(free, j, t + step) < job.Need(j) then t else t + step, step)
  {
    forall u | t + step <= u < 0x8000_0000
      ensures job.Count(free, j, u) <= job.Count(free, j, t + step)
    {
      job.CountAntitone(free, j, t + step, u, |job.inputs|);
    }
  }

  /** nb_streams: how many outputs there are of each type. */
  method CountOutputs(job: Job) returns (nb_streams: array<int>)
    ensures fresh(nb_streams) && nb_streams.Length == TYPES && forall j: MediaType :: nb_streams[j] == job.Need(j)
  {
    nb_streams := new int[TYPES](_ => 0);
    for n := 0 to |job.outputs|
      invariant forall j: MediaType :: nb_streams[j] == job.Wanted(j, n)
    {
      nb_streams[job.outputs[n]] := nb_streams[job.outputs[n]] + 1;
    }
  }

  /** found_streams: how many inputs of each type meet the threshold of their type. */
  method CountFound(job: Job, free: array<bool>, threshold: array<int>) returns (found: array<int>)
    requires free.Length == |job.inputs| && threshold.Length == TYPES
    ensures fresh(found) && found.Length == TYPES
    ensures forall j: MediaType :: found[j] == job.Count(free[..], j, threshold[j])
  {
    found := new int[TYPES](_ => 0);
    for i := 0 to |job.inputs|
      invariant forall j: MediaType :: found[j] == job.CountTo(free[..], j, threshold[j], i)
    {
      var ist := job.inputs[i];
      var skip := job.programId && !ist.inProgram;
      if free[i] && !ist.discardAll && !skip && threshold[ist.kind] <= ist.frames {
        found[ist.kind] := found[ist.kind] + 1;
      }
    }
  }

  /** The search sets every bit, from the highest, that leaves enough inputs. */
  method FindThresholds(job: Job, free: array<bool>, nb_streams: array<int>) returns (threshold: array<int>)
    requires free.Length == |job.inputs| && nb_streams.Length == TYPES
    requires forall j: MediaType :: nb_streams[j] == job.Need(j)
    ensures fresh(threshold) && threshold.Length == TYPES
    ensures forall j: MediaType :: job.IsThreshold(free[..], j, threshold[j])
  {
    threshold := new int[TYPES](_ => 0);
    var step := 0x4000_0000;
    ghost var k := 31;
    assert Pow2(10) == 0x400;
    assert Pow2(20) == 0x10_0000;
    assert Pow2(31) == 0x8000_0000;
    while step != 0
      invariant 0 <= k && step == Pow2(k) / 2
      invariant SearchedTo(job, free[..], threshold[..], Pow2(k))
      decreases step
    {
      TryBit(job, free, nb_streams, threshold, step, Pow2(k));
      step, k := step / 2, k - 1;
    }
    assert Pow2(k) == 1;
    forall j: MediaType
      ensures job.IsThreshold(free[..], j, threshold[j])
    {
      assert SearchedAt(job, free[..], j, threshold[..][j], 1);
    }
  }

  /** One round of the search. */
  method TryBit(job: Job, free: array<bool>, nb_streams: array<int>, threshold: array<int>, step: nat, ghost w: nat)
    requires free.Length == |job.inputs| && nb_streams.Length == TYPES
    requires forall j: MediaType :: nb_streams[j] == job.Need(j)
    requires threshold.Length == TYPES && threshold != nb_streams
    requires w == 2 * step && SearchedTo(job, free[..], threshold[..], w)
    modifies threshold
    ensures SearchedTo(job, free[..], threshold[..], step)
  {
    ghost var before := threshold[..];
    AddToAll(threshold, step);
    var found := CountFound(job, free, threshold);
    ghost var counts := found[..];
    assert forall j: MediaType :: counts[j] == job.Count(free[..], j, before[j] + step);
    for j := 0 to TYPES
      invariant found[..] == counts
      invariant forall i: MediaType :: i >= j ==> threshold[i] == before[i] + step
      invariant forall i: MediaType :: i < j ==>
        threshold[i] == if counts[i] < job.Need(i) then before[i] else before[i] + step
    {
      assert found[j] == counts[j];
      if found[j] < nb_streams[j] {
        threshold[j] := threshold[j] - step;
      }
    }
    forall j: MediaType
      ensures SearchedAt(job, free[..], j, threshold[..][j], step)
    {
      assert SearchedAt(job, free[..], j, before[j], w);
      BitTried(job, free[..], j, before[j], w, step);
    }
  }

  method AddToAll(threshold: array<int>, step: nat)
    requires threshold.Length == TYPES
    modifies threshold
    ensures forall j: MediaType :: threshold[j] == old(threshold[j]) + step
  {
    for j := 0 to TYPES
      invariant forall i: MediaType :: threshold[i] == old(threshold[i]) + if i < j then step else 0
    {
      threshold[j] := threshold[j] + step;
    }
  }

  // The assignment

  /** What holds of the outputs served so far: each has an input of its type that meets the threshold, the first of
      them that were free; one is used again exactly when no eligible input was left, and then it is the last of its
      type. */
  ghost predicate Served(job: Job, free0: seq<bool>, t: seq<int>, source: seq<nat>, free: seq<bool>)
    requires |free0| == |free| == |job.inputs| && |t| == TYPES && |source| <= |job.outputs|
  {
    && (forall n :: 0 <= n < |source| ==> ServedAt(job, free0, t, source, n))
    && (forall i :: 0 <= i < |free| ==> free[i] == (free0[i] && i !in source))
    && (forall j: MediaType :: job.Count(free, j, t[j]) == Left(job.Count(free0, j, t[j]), job.Wanted(j, |source|)))
  }

  function Left(had: nat, wanted: nat): nat {
    if wanted < had then had - wanted else 0
  }

  ghost predicate ServedAt(job: Job, free0: seq<bool>, t: seq<int>, source: seq<nat>, n: nat)
    requires |free0| == |job.inputs| && |t| == TYPES && n < |source| <= |job.outputs|
  {
    var kind := job.outputs[n];
    && source[n] < |job.inputs|
    && job.Eligible(free0, source[n], kind, t[kind])
    && (source[n] in source[..n] <==> job.Count(free0, kind, t[kind]) <= job.Wanted(kind, n))
    && (source[n] in source[..n] || FirstLeft(job, free0, t[kind], source, n))
    && (source[n] in source[..n] ==> LastOfType(job, kind, source[n]))
  }

  /** No input behind it is of its type and not thrown away. */
  ghost predicate LastOfType(job: Job, kind: MediaType, i: nat) {
    forall k :: i < k < |job.inputs| ==> job.inputs[k].kind != kind || job.inputs[k].discardAll
  }

  /** Every eligible input before the one chosen was already taken. */
  ghost predicate FirstLeft(job: Job, free0: seq<bool>, threshold: int, source: seq<nat>, n: nat)
    requires |free0| == |job.inputs| && n < |source| <= |job.outputs| && source[n] < |job.inputs|
  {
    forall i :: 0 <= i < source[n] && job.Eligible(free0, i, job.outputs[n], threshold) ==> i in source[..n]
  }

  /** Enough inputs meet every threshold. */
  ghost predicate Enough(job: Job, free0: seq<bool>, t: seq<int>)
    requires |free0| == |job.inputs| && |t| == TYPES
  {
    forall j: MediaType :: job.Need(j) <= job.Count(free0, j, t[j])
  }

  ghost predicate AllDifferent(source: seq<nat>) {
    forall m, n :: 0 <= m < n < |source| ==> source[m] != source[n]
  }

  lemma ServedKept(job: Job, free0: seq<bool>, t: seq<int>, source: seq<nat>, free: seq<bool>, i: nat)
    requires |free0| == |free| == |job.inputs| && |t| == TYPES && |source| < |job.outputs| && i < |free|
    requires Served(job, free0, t, source, free)
    requires ServedAt(job, free0, t, source + [i], |source|)
    ensures Served(job, free0, t, source + [i], free[i := false])
  {
    var n := |source|;
    var more := source + [i];
    forall m | 0 <= m < n
      ensures ServedAt(job, free0, t, more, m)
    {
      assert ServedAt(job, free0, t, source, m);
      assert more[..m] == source[..m];
    }
    assert more[..n] == source;
    forall j: MediaType
      ensures job.Count(free[i := false], j, t[j]) == Left(job.Count(free0, j, t[j]), job.Wanted(j, n + 1))
    {
      job.CountTaken(free, i, j, t[j], |job.inputs|);
    }
  }

  /** The first free input that may serve the output, or |inputs|. */
  method FindFirst(job: Job, free: array<bool>, kind: MediaType, threshold: array<int>) returns (j: nat)
    requires free.Length == |job.inputs| && threshold.Length == TYPES
    ensures j <= |job.inputs| && (j < |job.inputs| ==> job.Eligible(free[..], j, kind, threshold[kind]))
    ensures forall i :: 0 <= i < j ==> !job.Eligible(free[..], i, kind, threshold[kind])
    ensures j < |job.inputs| <==> 0 < job.Count(free[..], kind, threshold[kind])
  {
    j := 0;
    while j < |job.inputs|
      invariant j <= |job.inputs| && forall i :: 0 <= i < j ==> !job.Eligible(free[..], i, kind, threshold[kind])
    {
      var ist := job.inputs[j];
      var skip := job.programId && !ist.inProgram;
      if free[j] && !ist.discardAll && !skip && ist.kind == kind && threshold[ist.kind] <= ist.frames {
        CountPositive(job, free[..], kind, threshold[kind], j, |job.inputs|);
        return;
      }
      j := j + 1;
    }
    job.CountNone(free[..], kind, threshold[kind], |job.inputs|);
  }

  lemma {:induction false} CountPositive(job: Job, free: seq<bool>, kind: MediaType, t: int, i: nat, n: nat)
    requires |free| == |job.inputs| && i < n <= |job.inputs| && job.Eligible(free, i, kind, t)
    ensures 0 < job.CountTo(free, kind, t, n)
  {
    if i < n - 1 {
      CountPositive(job, free, kind, t, i, n - 1);
    }
  }

  /** The last input of the type that is not thrown away, free or not, or |inputs|. */
  method FindReusable(job: Job, kind: MediaType) returns (j: nat)
    ensures j <= |job.inputs| && (j < |job.inputs| ==> job.inputs[j].kind == kind && !job.inputs[j].discardAll)
    ensures j == |job.inputs| ==> forall i :: 0 <= i < |job.inputs| ==>
      job.inputs[i].kind != kind || job.inputs[i].discardAll
    ensures forall i :: j < i < |job.inputs| ==> job.inputs[i].kind != kind || job.inputs[i].discardAll
  {
    j := |job.inputs|;
    for i := 0 to |job.inputs|
      invariant j < i || j == |job.inputs|
      invariant j < i ==> job.inputs[j].kind == kind && !job.inputs[j].discardAll
      invariant forall k :: 0 <= k < i && (j < k || j == |job.inputs|) ==>
        job.inputs[k].kind != kind || job.inputs[k].discardAll
    {
      if job.inputs[i].kind == kind && !job.inputs[i].discardAll {
        j := i;
      }
    }
  }

  /** When nothing is left the threshold is 0, so whatever the fallback finds has already been taken. */
  lemma ReuseIsServed(job: Job, free0: seq<bool>, t: seq<int>, source: seq<nat>, free: seq<bool>, i: nat)
    requires |free0| == |free| == |job.inputs| && |t| == TYPES && |source| < |job.outputs| && i < |free|
    requires Served(job, free0, t, source, free) && (forall k :: 0 <= k < |free0| ==> free0[k])
    requires var kind := job.outputs[|source|];
      && job.IsThreshold(free0, kind, t[kind]) && job.Count(free, kind, t[kind]) == 0 && job.inputs[i].kind == kind
      && LastOfType(job, kind, i)
    requires !job.inputs[i].discardAll && !job.programId
    ensures ServedAt(job, free0, t, source + [i], |source|)
  {
    var n := |source|;
    var kind := job.outputs[n];
    assert (source + [i])[..n] == source;
    NeedAbove(job, n);
    assert t[kind] == 0;
    assert job.Eligible(free0, i, kind, t[kind]);
    if i !in source {
      CountPositive(job, free, kind, t[kind], i, |job.inputs|);
    }
  }

  lemma NeedAbove(job: Job, n: nat)
    requires n < |job.outputs|
    ensures job.Wanted(job.outputs[n], n) < job.Need(job.outputs[n])
  {
    job.WantedGrows(job.outputs[n], n + 1, |job.outputs|);
  }

  lemma FirstIsServed(job: Job, free0: seq<bool>, t: seq<int>, source: seq<nat>, free: seq<bool>, i: nat)
    requires |free0| == |free| == |job.inputs| && |t| == TYPES && |source| < |job.outputs| && i < |free|
    requires Served(job, free0, t, source, free)
    requires var kind := job.outputs[|source|];
      && job.Eligible(free, i, kind, t[kind]) && 0 < job.Count(free, kind, t[kind])
      && forall k :: 0 <= k < i ==> !job.Eligible(free, k, kind, t[kind])
    ensures ServedAt(job, free0, t, source + [i], |source|)
  {
    var kind := job.outputs[|source|];
    assert (source + [i])[..|source|] == source;
    forall k | 0 <= k < i && job.Eligible(free0, k, kind, t[kind])
      ensures k in source
    {
      assert !job.Eligible(free, k, kind, t[kind]);
    }
  }

  /** The assignment without stream maps, as one of the two outcomes: every output has a source, or the program stops
      at the output that none can be found for. */
  method Assign(job: Job, free: array<bool>, threshold: array<int>) returns (ok: bool, source: seq<nat>)
    requires free.Length == |job.inputs| && threshold.Length == TYPES && forall i :: 0 <= i < free.Length ==> free[i]
    requires forall j: MediaType :: job.IsThreshold(free[..], j, threshold[j])
    modifies free
    ensures |source| <= |job.outputs| && (ok <==> |source| == |job.outputs|)
    ensures Served(job, old(free[..]), threshold[..], source, free[..])
    ensures !ok ==> Unservable(job, old(free[..]), threshold[..], |source|)
  {
    ghost var free0 := free[..];
    ghost var t := threshold[..];
    source := [];
    assert Served(job, free0, t, source, free[..]);
    while |source| < |job.outputs|
      invariant |source| <= |job.outputs| && threshold[..] == t
      invariant Served(job, free0, t, source, free[..])
    {
      var kind := job.outputs[|source|];
      var j := FindFirst(job, free, kind, threshold);
      if j < |job.inputs| {
        FirstIsServed(job, free0, t, source, free[..], j);
      } else {
        if !job.programId {
          j := FindReusable(job, kind);
        }
        if j == |job.inputs| {
          NothingThere(job, free0, t, source, free[..]);
          return false, source;
        }
        ReuseIsServed(job, free0, t, source, free[..], j);
      }
      ServedKept(job, free0, t, source, free[..], j);
      source := source + [j];
      free[j] := false;
    }
    ok := true;
  }

  /** No eligible input is left for output n, and no other may be used again. */
  ghost predicate Unservable(job: Job, free0: seq<bool>, t: seq<int>, n: nat)
    requires |free0| == |job.inputs| && |t| == TYPES
  {
    n < |job.outputs| && var kind := job.outputs[n]; var had := job.Count(free0, kind, t[kind]);
    had <= job.Wanted(kind, n) && (job.programId || had == 0)
  }

  lemma NothingThere(job: Job, free0: seq<bool>, t: seq<int>, source: seq<nat>, free: seq<bool>)
    requires |free0| == |free| == |job.inputs| && |t| == TYPES && |source| < |job.outputs|
    requires Served(job, free0, t, source, free)
    requires job.Count(free, job.outputs[|source|], t[job.outputs[|source|]]) == 0
    requires job.programId || forall i :: 0 <= i < |job.inputs| ==>
      job.inputs[i].kind != job.outputs[|source|] || job.inputs[i].discardAll
    ensures Unservable(job, free0, t, |source|)
  {
    var kind := job.outputs[|source|];
    if !job.programId {
      job.CountNone(free0, kind, t[kind], |job.inputs|);
    }
  }

  /** With enough inputs no two outputs share one; and only with enough do they not. */
  lemma DistinctIffEnough(job: Job, free0: seq<bool>, t: seq<int>, source: seq<nat>, free: seq<bool>)
    requires |free0| == |free| == |job.inputs| && |t| == TYPES && |source| == |job.outputs|
    requires Served(job, free0, t, source, free)
    ensures AllDifferent(source) <==> Enough(job, free0, t)
  {
    if Enough(job, free0, t) {
      forall m, n | 0 <= m < n < |source|
        ensures source[m] != source[n]
      {
        assert ServedAt(job, free0, t, source, n);
        NeedAbove(job, n);
        assert source[m] == source[..n][m];
      }
    } else {
      var j: MediaType :| job.Count(free0, j, t[j]) < job.Need(j);
      var n := LastWanted(job, j, |job.outputs|);
      assert ServedAt(job, free0, t, source, n);
      var m :| 0 <= m < n && source[..n][m] == source[n];
      assert source[m] == source[n];
    }
  }

  lemma {:induction false} LastWanted(job: Job, kind: MediaType, upTo: nat) returns (n: nat)
    requires upTo <= |job.outputs| && 0 < job.Wanted(kind, upTo)
    ensures n < upTo && job.outputs[n] == kind && job.Wanted(kind, n) == job.Wanted(kind, upTo) - 1
  {
    if job.outputs[upTo - 1] == kind {
      n := upTo - 1;
    } else {
      n := LastWanted(job, kind, upTo - 1);
    }
  }

  /** Outputs of one type take their inputs in order. */
  lemma SourcesInOrder(job: Job, free0: seq<bool>, t: seq<int>, source: seq<nat>, free: seq<bool>, m: nat, n: nat)
    requires |free0| == |free| == |job.inputs| && |t| == TYPES && |source| == |job.outputs|
    requires Served(job, free0, t, source, free) && Enough(job, free0, t)
    requires m < n < |source| && job.outputs[m] == job.outputs[n]
    ensures source[m] < source[n]
  {
    DistinctIffEnough(job, free0, t, source, free);
    assert ServedAt(job, free0, t, source, m) && ServedAt(job, free0, t, source, n);
    NeedAbove(job, m);
    assert forall k :: 0 <= k < m ==> source[..m][k] == source[k];
    assert source[n] !in source[..m];
  }

  /** The input of an output, written out: of its type, not thrown away, of the program asked for and seen often enough;
      the first of these not yet in use, or if it is used again, the last of its type that is not thrown away. */
  lemma SourceIs(job: Job, t: seq<int>, source: seq<nat>, free: seq<bool>, n: nat)
    requires |free| == |job.inputs| && |t| == TYPES && n < |source| <= |job.outputs|
    requires Served(job, AllFree(job), t, source, free)
    ensures source[n] < |job.inputs|
    ensures var x := job.inputs[source[n]];
      && x.kind == job.outputs[n] && !x.discardAll && (job.programId ==> x.inProgram) && t[x.kind] <= x.frames
    ensures source[n] !in source[..n] ==> forall i :: 0 <= i < source[n] ==>
      var x := job.inputs[i];
      || i in source[..n] || x.kind != job.outputs[n] || x.discardAll || (job.programId && !x.inProgram)
      || x.frames < t[x.kind]
    ensures source[n] in source[..n] ==> forall i :: source[n] < i < |job.inputs| ==>
      job.inputs[i].kind != job.outputs[n] || job.inputs[i].discardAll
  {
    assert ServedAt(job, AllFree(job), t, source, n);
    if source[n] !in source[..n] {
      assert FirstLeft(job, AllFree(job), t[job.outputs[n]], source, n);
      forall i | 0 <= i < source[n]
        ensures job.Eligible(AllFree(job), i, job.outputs[n], t[job.outputs[n]]) ==> i in source[..n]
      {
      }
    }
  }

  /** The only output of a type gets the input of it, among those that may be used, of which the most frames were seen;
      of several such the first. */
  lemma MostFramesWin(job: Job, t: seq<int>, source: seq<nat>, free: seq<bool>, n: nat, i: nat)
    requires |free| == |job.inputs| && |t| == TYPES && n < |source| <= |job.outputs|
    requires Served(job, AllFree(job), t, source, free)
    requires forall j: MediaType :: job.IsThreshold(AllFree(job), j, t[j])
    requires job.Need(job.outputs[n]) == 1 && i < |job.inputs|
    requires forall k :: 0 <= k < |job.inputs| ==> job.inputs[k].frames < 0x8000_0000
    requires var x := job.inputs[i]; x.kind == job.outputs[n] && !x.discardAll && (job.programId ==> x.inProgram)
    ensures source[n] < |job.inputs| && job.inputs[i].frames <= job.inputs[source[n]].frames
    ensures job.inputs[i].frames == job.inputs[source[n]].frames ==> source[n] <= i
  {
    var kind := job.outputs[n];
    SourceIs(job, t, source, free, n);
    assert job.IsThreshold(AllFree(job), kind, t[kind]);
    AboveIsNone(job, kind, t[kind], i);
    AboveIsNone(job, kind, t[kind], source[n]);
    NeedAbove(job, n);
    assert job.Eligible(AllFree(job), source[n], kind, t[kind]);
    CountPositive(job, AllFree(job), kind, t[kind], source[n], |job.inputs|);
    assert ServedAt(job, AllFree(job), t, source, n);
    assert 0 < job.Count(AllFree(job), kind, t[kind]) && job.Wanted(kind, n) == 0;
    forall k | 0 <= k < n
      ensures source[k] < |job.inputs| && job.inputs[source[k]].kind == job.outputs[k] != kind
    {
      SourceIs(job, t, source, free, k);
      job.WantedGrows(job.outputs[k], k + 1, n);
    }
  }

  /** With one output of the type no usable input of it was seen more often than the threshold says. */
  lemma AboveIsNone(job: Job, kind: MediaType, t: int, i: nat)
    requires job.IsThreshold(AllFree(job), kind, t) && job.Need(kind) == 1 && i < |job.inputs|
    requires var x := job.inputs[i];
      x.kind == kind && !x.discardAll && (job.programId ==> x.inProgram) && x.frames < 0x8000_0000
    ensures job.inputs[i].frames <= t
  {
    var u := job.inputs[i].frames;
    var above := job.Count(AllFree(job), kind, u);
    if t < u {
      assert job.Eligible(AllFree(job), i, kind, u);
      CountPositive(job, AllFree(job), kind, u, i, |job.inputs|);
      assert false;
    }
  }

  /** The assignment with one map per output: an output is given the mapped input, which must be of its type. */
  method AssignMapped(job: Job, free: array<bool>, maps: seq<nat>) returns (ok: bool, source: seq<nat>)
    requires free.Length == |job.inputs| && |maps| == |job.outputs|
    requires forall n :: 0 <= n < |maps| ==> maps[n] < |job.inputs|
    modifies free
    ensures ok <==> forall n :: 0 <= n < |maps| ==> job.inputs[maps[n]].kind == job.outputs[n]
    ensures ok ==> source == maps && forall i :: 0 <= i < free.Length ==> free[i] == (old(free[i]) && i !in maps)
  {
    source := [];
    for n := 0 to |maps|
      invariant source == maps[..n] && forall k :: 0 <= k < n ==> job.inputs[maps[k]].kind == job.outputs[k]
      invariant forall i :: 0 <= i < free.Length ==> free[i] == (old(free[i]) && i !in maps[..n])
    {
      if job.inputs[maps[n]].kind != job.outputs[n] {
        return false, source;
      }
      assert maps[..n + 1] == maps[..n] + [maps[n]];
      source := source + [maps[n]];
      free[maps[n]] := false;
    }
    assert maps[..|maps|] == maps;
    ok := true;
  }

  /** The part of transcode that gives every output its input. Without maps, the result is determined by how many inputs
      of each type meet the largest threshold that enough of them meet. */
  method SelectStreams(job: Job, maps: seq<nat>)
    returns (ok: bool, source: seq<nat>, free: array<bool>, threshold: array<int>)
    requires maps == [] || |maps| == |job.outputs|
    requires forall n :: 0 <= n < |maps| ==> maps[n] < |job.inputs|
    ensures fresh(free) && fresh(threshold) && free.Length == |job.inputs| && threshold.Length == TYPES
    ensures forall j: MediaType :: job.IsThreshold(AllFree(job), j, threshold[j])
    ensures maps != [] && ok ==> source == maps
    ensures maps == [] ==> |source| <= |job.outputs| && (ok <==> |source| == |job.outputs|)
    ensures maps == [] ==> Served(job, AllFree(job), threshold[..], source, free[..])
    ensures maps == [] && EnoughUsable(job) ==> ok
    ensures maps == [] && ok ==> (AllDifferent(source) <==> EnoughUsable(job))
  {
    free := new bool[|job.inputs|](_ => true);
    assert free[..] == AllFree(job);
    var nb_streams := CountOutputs(job);
    threshold := FindThresholds(job, free, nb_streams);
    EnoughIffUsable(job, threshold[..]);
    if maps != [] {
      ok, source := AssignMapped(job, free, maps);
    } else {
      ok, source := Assign(job, free, threshold);
      if ok {
        DistinctIffEnough(job, AllFree(job), threshold[..], source, free[..]);
      } else {
        NeedAbove(job, |source|);
      }
    }
  }

  /** As many inputs of every type can be used at all as there are outputs of it. */
  ghost predicate EnoughUsable(job: Job) {
    forall j: MediaType :: job.Need(j) <= job.Count(AllFree(job), j, 0)
  }

  /** The threshold never costs an output its input. */
  lemma EnoughIffUsable(job: Job, t: seq<int>)
    requires |t| == TYPES && forall j: MediaType :: job.IsThreshold(AllFree(job), j, t[j])
    ensures Enough(job, AllFree(job), t) <==> EnoughUsable(job)
  {
    forall j: MediaType
      ensures job.Need(j) <= job.Count(AllFree(job), j, t[j]) <==> job.Need(j) <= job.Count(AllFree(job), j, 0)
    {
      assert job.IsThreshold(AllFree(job), j, t[j]);
      job.CountAntitone(AllFree(job), j, 0, t[j], |job.inputs|);
    }
  }

  ghost function AllFree(job: Job): (r: seq<bool>)
    ensures |r| == |job.inputs| && forall i :: 0 <= i < |r| ==> r[i]
  {
    seq(|job.inputs|, _ => true)
  }
}
