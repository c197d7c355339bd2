// The frame-rate synchronisation of do_video_out in ffmpeg.c: which pictures are dropped, which are repeated, and
// under which output timestamps they are encoded. Time is counted in output frames.
module FrameSync {
  /** The nearest integer, ties to even. */
  function Lrint(x: real): (r: int)
    ensures -0.5 <= x - r as real <= 0.5
    ensures x - r as real == 0.5 || x - r as real == -0.5 ==> r % 2 == 0
  {
    var below := x.Floor;
    var rest := x - below as real;
    if rest < 0.5 || (rest == 0.5 && below % 2 == 0) then below else below + 1
  }

  lemma LrintMonotone(x: real, y: real)
    requires x <= y
    ensures Lrint(x) <= Lrint(y)
  {
    assert x.Floor <= y.Floor;
  }

  /** An encoded frame: its timestamp, and the time of the input picture it shows. */
  datatype Frame = Frame(pts: int, shown: real)

  /** video_sync_method, whether the output format allows a variable frame rate, and the limit on frames. */
  datatype Options = Options(sync: int, variableFps: bool, maxFrames: int)
  {
    predicate Variable() {
      sync == 2 || (sync < 0 && variableFps)
    }

    predicate Constant() {
      sync != 0 && !Variable()
    }
  }

  ghost predicate Increasing(frames: seq<Frame>) {
    forall i, j :: 0 <= i < j < |frames| ==> frames[i].pts < frames[j].pts
  }

  datatype Clock = Clock(sync_opts: int, frame_number: int, drop: int, dup: int, frames: seq<Frame>)
  {
    ghost predicate InOrder() {
      Increasing(frames) && (forall i :: 0 <= i < |frames| ==> frames[i].pts < sync_opts)
    }

    ghost predicate FramesClose() {
      forall i :: 0 <= i < |frames| ==> -0.6 <= frames[i].shown - frames[i].pts as real <= 0.6
    }

    /** The frames from the k-th on have the timestamps from first on, without a gap, up to the counter. */
    ghost predicate NoGap(k: nat, first: int) {
      && k <= |frames| && sync_opts == first + |frames| - k
      && forall i :: k <= i < |frames| ==> frames[i].pts == first + i - k
    }
  }

  // What one picture does, as the frames it becomes

  /** n copies of a picture from a timestamp on. */
  function Copies(first: int, n: nat, shown: real): (r: seq<Frame>)
    ensures |r| == n
  {
    seq(n, i requires 0 <= i < n => Frame(first + i, shown))
  }

  /** How many frames the picture is worth before the limit. */
  function Worth(o: Options, c: Clock, ipts: real): (r: int)
    ensures 0 <= r
  {
    var vdelta := ipts - c.sync_opts as real;
    if o.sync == 0 then 1
    else if vdelta < -1.1 then 0
    else if o.Variable() then (if vdelta <= -0.6 then 0 else 1)
    else if vdelta > 1.1 then Lrint(vdelta)
    else 1
  }

  /** The timestamp its first frame gets. */
  function Start(o: Options, c: Clock, ipts: real): int {
    if o.sync == 0 || (o.Variable() && ipts - c.sync_opts as real > 0.6) then Lrint(ipts) else c.sync_opts
  }

  function Written(o: Options, c: Clock, ipts: real): nat {
    var room := o.maxFrames - c.frame_number;
    var worth := Worth(o, c, ipts);
    if worth <= room then worth else if 0 <= room then room else 0
  }

  function Next(o: Options, c: Clock, ipts: real): Clock {
    var worth := Worth(o, c, ipts);
    var n := Written(o, c, ipts);
    var start := Start(o, c, ipts);
    Clock(start + n, c.frame_number + n, if worth == 0 then c.drop + 1 else c.drop,
          if worth > 1 then c.dup + worth - 1 else c.dup, c.frames + Copies(start, n, ipts))
  }

  function After(o: Options, c: Clock, times: seq<real>): Clock {
    if times == [] then c else Next(o, After(o, c, times[..|times| - 1]), times[|times| - 1])
  }

  // What a picture is worth, by how far it is ahead of the output

  /** Method 1 is a constant rate and 2 a variable one; a negative one leaves it to the output format. */
  lemma Modes(o: Options)
    ensures o.Variable() <==> o.sync == 2 || (o.sync <= -1 && o.variableFps)
    ensures o.Constant() <==> o.sync == 1 || o.sync >= 3 || (o.sync <= -1 && !o.variableFps)
  {
  }

  /** With a method other than 0 a picture is dropped at 0.6 frames behind the output if the rate is variable, and
      beyond 1.1 if it is constant; with method 0, never. */
  lemma DroppedIff(o: Options, c: Clock, ipts: real)
    ensures var d := ipts - c.sync_opts as real;
      Next(o, c, ipts).drop != c.drop <==> (o.sync != 0 && o.Variable() && d <= -0.6) || (o.Constant() && d < -1.1)
    ensures Next(o, c, ipts).drop != c.drop ==> Next(o, c, ipts) == c.(drop := c.drop + 1)
  {
    assert Next(o, c, ipts).drop != c.drop ==> Copies(c.sync_opts, 0, ipts) == [];
  }

  /** It is repeated only at a constant rate, and so that the output comes nearest to it. */
  lemma RepeatedIff(o: Options, c: Clock, ipts: real)
    ensures var d := ipts - c.sync_opts as real;
      Next(o, c, ipts).dup - c.dup == if o.Constant() && 1 < Lrint(d) then Lrint(d) - 1 else 0
  {
    var d := ipts - c.sync_opts as real;
    if 1 < Lrint(d) {
      assert d >= 1.5;
    }
  }

  /** At a variable rate a picture that is written keeps the timestamp due if it is at most 0.6 frames ahead of it, and
      gets the nearest one otherwise. */
  lemma TimedAt(o: Options, c: Clock, ipts: real)
    requires o.sync != 0 && o.Variable() && c.frame_number < o.maxFrames && ipts - c.sync_opts as real > -0.6
    ensures var pts := if ipts <= c.sync_opts as real + 0.6 then c.sync_opts else Lrint(ipts);
      Next(o, c, ipts).frames == c.frames + [Frame(pts, ipts)] && Next(o, c, ipts).sync_opts == pts + 1
  {
    var pts := Start(o, c, ipts);
    assert Copies(pts, 1, ipts) == [Frame(pts, ipts)];
  }

  // The code

  class VideoOutput {
    const options: Options
    var sync_opts: int
    var frame_number: int
    var nb_frames_drop: int
    var nb_frames_dup: int
    var frames: seq<Frame>

    constructor (options: Options)
      ensures this.options == options && State() == Clock(0, 0, 0, 0, [])
    {
      this.options := options;
      sync_opts, frame_number, nb_frames_drop, nb_frames_dup, frames := 0, 0, 0, 0, [];
    }

    function State(): Clock
      reads this
    {
      Clock(sync_opts, frame_number, nb_frames_drop, nb_frames_dup, frames)
    }

    method DoVideoOut(sync_ipts: real)
      modifies this
      ensures State() == Next(options, old(State()), sync_ipts)
    {
      var nb_frames := 1;
      if options.sync != 0 {
        var vdelta := sync_ipts - sync_opts as real;
        if vdelta < -1.1 {
          nb_frames := 0;
        } else if options.sync == 2 || (options.sync < 0 && options.variableFps) {
          if vdelta <= -0.6 {
            nb_frames := 0;
          } else if vdelta > 0.6 {
            sync_opts := Lrint(sync_ipts);
          }
        } else if vdelta > 1.1 {
          nb_frames := Lrint(vdelta);
        }
        if nb_frames == 0 {
          nb_frames_drop := nb_frames_drop + 1;
        } else if nb_frames > 1 {
          nb_frames_dup := nb_frames_dup + nb_frames - 1;
        }
      } else {
        sync_opts := Lrint(sync_ipts);
      }
      nb_frames :=
        if nb_frames <= options.maxFrames - frame_number then nb_frames else options.maxFrames - frame_number;
      if nb_frames <= 0 {
        return;
      }
      Encode(nb_frames, sync_ipts);
    }

    /** The picture, encoded so many times. */
    method Encode(nb_frames: nat, shown: real)
      modifies this`sync_opts, this`frame_number, this`frames
      ensures sync_opts == old(sync_opts) + nb_frames && frame_number == old(frame_number) + nb_frames
      ensures frames == old(frames) + Copies(old(sync_opts), nb_frames, shown)
    {
      var i := 0;
      while i < nb_frames
        invariant 0 <= i <= nb_frames && sync_opts == old(sync_opts) + i && frame_number == old(frame_number) + i
        invariant frames == old(frames) + Copies(old(sync_opts), i, shown)
      {
        assert Copies(old(sync_opts), i + 1, shown) == Copies(old(sync_opts), i, shown) + [Frame(sync_opts, shown)];
        frames := frames + [Frame(sync_opts, shown)];
        sync_opts := sync_opts + 1;
        frame_number := frame_number + 1;
        i := i + 1;
      }
    }

    /** Every picture of a run. */
    method EncodeAll(times: seq<real>)
      modifies this
      ensures State() == After(options, old(State()), times)
    {
      for k := 0 to |times|
        invariant State() == After(options, old(State()), times[..k])
      {
        assert times[..k + 1][..k] == times[..k];
        DoVideoOut(times[k]);
      }
      assert times[..|times|] == times;
    }
  }

  // Whole runs

  ghost predicate NonDecreasing(times: seq<real>) {
    forall i, j :: 0 <= i < j < |times| ==> times[i] <= times[j]
  }

  /** With a method other than 0, timestamps strictly increase, whatever the input times are. */
  lemma {:induction false} TimestampsIncrease(o: Options, c: Clock, times: seq<real>)
    requires o.sync != 0 && c.InOrder()
    ensures After(o, c, times).InOrder()
  {
    if times == [] {
    } else {
      var most := times[..|times| - 1];
      TimestampsIncrease(o, c, most);
      OneInOrder(o, After(o, c, most), times[|times| - 1]);
    }
  }

  lemma OneInOrder(o: Options, c: Clock, ipts: real)
    requires o.sync != 0 && c.InOrder()
    ensures Next(o, c, ipts).InOrder()
  {
    var start := Start(o, c, ipts);
    assert c.sync_opts <= start;
    var added := Copies(start, Written(o, c, ipts), ipts);
    forall i | 0 <= i < |added|
      ensures added[i].pts == start + i
    {
    }
  }

  /** With method 0 they are the rounded input times, so they increase exactly when those do. */
  lemma {:induction false} PassThrough(o: Options, c: Clock, times: seq<real>)
    requires o.sync == 0 && c.frames == [] && c.frame_number + |times| <= o.maxFrames
    ensures |After(o, c, times).frames| == |times| && After(o, c, times).frame_number == c.frame_number + |times|
    ensures After(o, c, times).drop == c.drop && After(o, c, times).dup == c.dup
    ensures forall i :: 0 <= i < |times| ==> After(o, c, times).frames[i] == Frame(Lrint(times[i]), times[i])
  {
    if times == [] {
    } else {
      PassThrough(o, c, times[..|times| - 1]);
    }
  }

  lemma PassThroughIncreases(o: Options, c: Clock, times: seq<real>)
    requires o.sync == 0 && c.frames == [] && c.frame_number + |times| <= o.maxFrames
    ensures Increasing(After(o, c, times).frames) <==> forall i, j :: 0 <= i < j < |times| ==>
      Lrint(times[i]) < Lrint(times[j])
  {
    PassThrough(o, c, times);
  }

  /** In mode 0 timestamps of pictures in order never go back, though they may repeat. */
  lemma PassThroughNeverBack(o: Options, c: Clock, times: seq<real>)
    requires o.sync == 0 && c.frames == [] && c.frame_number + |times| <= o.maxFrames
    requires NonDecreasing(times)
    ensures |After(o, c, times).frames| == |times|
    ensures forall i, j :: 0 <= i < j < |times| ==> After(o, c, times).frames[i].pts <= After(o, c, times).frames[j].pts
  {
    PassThrough(o, c, times);
    forall i, j | 0 <= i < j < |times|
      ensures After(o, c, times).frames[i].pts <= After(o, c, times).frames[j].pts
    {
      LrintMonotone(times[i], times[j]);
    }
  }

  function Due(o: Options, c: Clock, times: seq<real>): int {
    |times| + (After(o, c, times).dup - c.dup) - (After(o, c, times).drop - c.drop)
  }

  /** Frames out = pictures in + repeated - dropped, as long as the limit was not reached; if more frames are due than
      the limit allows, as many as it allows. */
  lemma {:induction false} FramesConserved(o: Options, c: Clock, times: seq<real>)
    ensures c.frame_number < o.maxFrames < c.frame_number + Due(o, c, times) ==>
      After(o, c, times).frame_number == o.maxFrames
    ensures After(o, c, times).frame_number <= if c.frame_number < o.maxFrames then o.maxFrames else c.frame_number
    ensures 0 <= Due(o, c, times)
    ensures c.frame_number <= After(o, c, times).frame_number
    ensures After(o, c, times).frame_number - c.frame_number
       == |After(o, c, times).frames| - |c.frames| <= Due(o, c, times)
    ensures After(o, c, times).frame_number < o.maxFrames ==>
      |After(o, c, times).frames| - |c.frames| == Due(o, c, times)
  {
    if times == [] {
    } else {
      FramesConserved(o, c, times[..|times| - 1]);
    }
  }

  /** How far the input is ahead of the output after these pictures. */
  function Drift(o: Options, c: Clock, times: seq<real>): real
    requires times != []
  {
    times[|times| - 1] - After(o, c, times).sync_opts as real
  }

  lemma {:induction false} DriftBounded(o: Options, c: Clock, times: seq<real>)
    requires o.Constant() && times != [] && NonDecreasing(times)
    requires After(o, c, times).frame_number < o.maxFrames
    requires -2.1 <= times[0] - c.sync_opts as real
    ensures -2.1 <= Drift(o, c, times) <= 0.5
  {
    var last := |times| - 1;
    var most := times[..last];
    NoRoomUsed(o, After(o, c, most), times[last]);
    if last == 0 {
    } else {
      DriftBounded(o, c, most);
      assert times[last - 1] <= times[last];
    }
  }

  lemma NoRoomUsed(o: Options, c: Clock, ipts: real)
    requires Next(o, c, ipts).frame_number < o.maxFrames
    ensures c.frame_number < o.maxFrames && Written(o, c, ipts) == Worth(o, c, ipts)
  {
  }

  /** At a constant rate with non-decreasing input times, the input stays between 2.1 frames behind the output and half
      a frame ahead of it all the time, if and only if it is at most 2.1 frames behind at the first picture. */
  lemma DriftBoundedIff(o: Options, c: Clock, times: seq<real>)
    requires o.Constant() && times != [] && NonDecreasing(times)
    requires After(o, c, times).frame_number < o.maxFrames
    ensures -2.1 <= times[0] - c.sync_opts as real
       <==> forall k :: 0 < k <= |times| ==> -2.1 <= Drift(o, c, times[..k]) <= 0.5
  {
    if -2.1 <= times[0] - c.sync_opts as real {
      forall k | 0 < k <= |times|
        ensures -2.1 <= Drift(o, c, times[..k]) <= 0.5
      {
        NumberGrows(o, c, times, k);
        DriftBounded(o, c, times[..k]);
      }
    } else {
      assert After(o, c, times[..1][..0]) == c;
      assert Drift(o, c, times[..1]) == times[0] - c.sync_opts as real;
    }
  }

  lemma {:induction false} NumberGrows(o: Options, c: Clock, times: seq<real>, k: nat)
    requires k <= |times|
    ensures After(o, c, times[..k]).frame_number <= After(o, c, times).frame_number
  {
    if k < |times| {
      NumberGrows(o, c, times[..|times| - 1], k);
      assert times[..|times| - 1][..k] == times[..k];
    } else {
      assert times[..k] == times;
    }
  }

  /** From any start, the output never falls more than half a frame behind the input. */
  lemma OutputKeepsUp(o: Options, c: Clock, times: seq<real>)
    requires o.Constant() && times != [] && After(o, c, times).frame_number < o.maxFrames
    ensures Drift(o, c, times) <= 0.5
  {
    assert After(o, c, times) == Next(o, After(o, c, times[..|times| - 1]), times[|times| - 1]);
  }

  /** At a constant rate the timestamps have no gap, whatever the input does. */
  lemma {:induction false} ConstantRate(o: Options, c: Clock, times: seq<real>)
    requires o.Constant()
    ensures After(o, c, times).NoGap(|c.frames|, c.sync_opts)
  {
    if times == [] {
    } else {
      ConstantRate(o, c, times[..|times| - 1]);
    }
  }

  /** At a variable rate no picture is repeated, and every frame is within 0.6 of the time of the picture it shows. */
  lemma {:induction false} VariableRate(o: Options, c: Clock, times: seq<real>)
    requires o.Variable() && c.FramesClose()
    ensures After(o, c, times).FramesClose() && After(o, c, times).dup == c.dup
  {
    if times == [] {
    } else {
      VariableRate(o, c, times[..|times| - 1]);
    }
  }
}
