// The picture ring and frame clock of ffplay.c: the video thread queues pictures, and the main thread shows them and
// pauses.  The two interleave between their accesses to the fields they share: the indices, which move outside the
// mutex, the target clocks, which the main thread reads without it, and the frame timer, which both update by reading
// and writing it without protection.
module PictureQueue {
  const QUEUE_SIZE := 2
  const NOPTS: real := -9223372036854775808.0

  datatype Picture = Picture(id: nat, pts: real, target: real)

  /** The video thread: between packets; with a decoded picture waiting for room; having found room; having filled the
      slot; having moved windex past slot v; holding the mutex and having read the frame timer, with the sum to write
      back; having written the sum; having queued the picture; single-stepping, and about to write the frame timer;
      holding the mutex for a flush with so many slots zeroed, and after the last waiting for the ring to drain;
      ended, during a flush or not. */
  datatype Producer =
    | Idle
    | Waiting(id: nat, pts: real)
    | Room(id: nat, pts: real)
    | Filled(id: nat, pts: real)
    | Bumped(v: nat, id: nat, pts: real)
    | Timing(v: nat, id: nat, read: real, sum: real)
    | Timed(v: nat, id: nat, sum: real)
    | Queued
    | Stepping(read: real, sum: real)
    | Flushing(zeroed: nat)
    | Ended(flushed: bool)

  /** A target clock as the main thread read it, and whether a flush had zeroed it by then. */
  datatype Reading = Reading(value: real, zeroed: bool)

  /** The main thread: between events; holding picture v since time; having found it due by the target clock seen;
      about to compare it with the next picture; with one of the two clocks read; with both; showing or dropping the
      picture; having moved rindex past it; unpausing, with the frame timer read and the sum to write back. */
  datatype Consumer =
    | Out
    | Holds(v: nat, time: real)
    | Due(v: nat, seen: Reading)
    | Compares(v: nat, seen: Reading)
    | HasHeld(v: nat, held: Reading)
    | HasNext(v: nat, seen: Reading, next: Reading)
    | Compared(v: nat, held: Reading, next: Reading)
    | Shows(v: nat)
    | Passed
    | Toggling(read: real, sum: real)

  datatype State = State(
    slots: seq<Picture>, size: int, rindex: nat, windex: nat,
    frame_timer: real, last_pts: real, last_delay: real,
    now: real, current_pts: real, drift: real, paused: bool,
    producer: Producer, consumer: Consumer,
    keeps_sum: bool,     // the compiled program returns the sum it has written, and does not read the timer again
    queued: seq<nat>,    // ids in the order their queueing was completed
    shown: seq<nat>)     // ids in the order they left the ring

  /** How compute_target_time changes the nominal delay to follow the master clock. */
  datatype Sync = AsIs | Drop | Double

  /** KeepHeld stands for a compiled program that does not read the clock of the picture again after line 1129. */
  datatype Event =
    | Tick(dt: real)
    | Decode(id: nat, pts: real)
    | FindRoom
    | Fill
    | MoveWrite
    | TimerRead(sync: Sync)
    | TimerWrite
    | Commit
    | StepOver
    | StepPause
    | StepRead
    | StepWrite(enosys: bool)
    | StartFlush
    | ZeroNext
    | EndFlush
    | Abort
    | Hold
    | TooEarly
    | FindDue
    | SeeNext
    | SeeNoNext
    | ReadHeld
    | KeepHeld
    | ReadNext
    | Judge
    | MoveRead
    | Release
    | Pause
    | ToggleRead
    | ToggleWrite(enosys: bool)

  function Next(i: nat): nat {
    if i + 1 == QUEUE_SIZE then 0 else i + 1
  }

  function NominalDelay(s: State, pts: real): real {
    var delay := pts - s.last_pts;
    if delay <= 0.0 || delay >= 10.0 then s.last_delay else delay
  }

  function Synced(delay: real, sync: Sync): real {
    match sync
    case AsIs => delay
    case Drop => 0.0
    case Double => 2.0 * delay
  }

  /** How many slots the flush under way, or the one the thread ended in, has zeroed. */
  function Zeroed(s: State): nat {
    match s.producer
    case Flushing(k) => k
    case Ended(flushed) => if flushed then QUEUE_SIZE else 0
    case _ => 0
  }

  predicate HoldsMutex(p: Producer) {
    p.Timing? || p.Timed? || (p.Flushing? && p.zeroed < QUEUE_SIZE)
  }

  ghost predicate Shaped(s: State) {
    |s.slots| == QUEUE_SIZE && s.rindex < QUEUE_SIZE && s.windex < QUEUE_SIZE
  }

  predicate Holding(c: Consumer) {
    c.Holds? || c.Due? || c.Compares? || c.HasHeld? || c.HasNext? || c.Compared? || c.Shows?
  }

  /** The slot the main thread holds is one of the ring. */
  ghost predicate InRing(s: State) {
    Shaped(s) && (Holding(s.consumer) ==> s.consumer.v < QUEUE_SIZE)
  }

  function Reads(s: State, v: nat): Reading
    requires v < |s.slots|
  {
    Reading(s.slots[v].target, v < Zeroed(s))
  }

  /** Whether a step can be taken: the thread is at that point, and the test it makes there comes out that way. */
  ghost predicate Enabled(s: State, e: Event)
    requires InRing(s)
  {
    match e
    case Tick(dt) => dt >= 0.0
    case Decode(_, _) => s.producer == Idle
    case FindRoom => s.producer.Waiting? && s.size < QUEUE_SIZE
    case Fill => s.producer.Room?
    case MoveWrite => s.producer.Filled?
    case TimerRead(_) => s.producer.Bumped?
    case TimerWrite => s.producer.Timing?
    case Commit => s.producer.Timed? && s.producer.v < QUEUE_SIZE
    case StepOver => s.producer == Queued
    case StepPause => s.producer == Queued && !s.paused
    case StepRead => s.producer == Queued && s.paused
    case StepWrite(_) => s.producer.Stepping?
    case StartFlush => s.producer == Idle
    case ZeroNext => s.producer.Flushing? && s.producer.zeroed < QUEUE_SIZE
    case EndFlush => s.producer == Flushing(QUEUE_SIZE) && s.size == 0
    case Abort => s.producer == Idle || s.producer.Waiting? || s.producer == Flushing(QUEUE_SIZE)
    case Hold => s.consumer == Out && s.size != 0
    case TooEarly => s.consumer.Holds? && s.consumer.time < s.slots[s.consumer.v].target
    case FindDue => s.consumer.Holds? && !(s.consumer.time < s.slots[s.consumer.v].target)
    case SeeNext => s.consumer.Due? && s.size > 1
    case SeeNoNext => s.consumer.Due? && s.size <= 1
    case ReadHeld => s.consumer.Compares? || s.consumer.HasNext?
    case KeepHeld => s.consumer.Compares? || s.consumer.HasNext?
    case ReadNext => s.consumer.Compares? || s.consumer.HasHeld?
    case Judge => s.consumer.Compared?
    case MoveRead => s.consumer.Shows?
    case Release => s.consumer == Passed && !HoldsMutex(s.producer)
    case Pause => s.consumer == Out && !s.paused
    case ToggleRead => s.consumer == Out && s.paused
    case ToggleWrite(_) => s.consumer.Toggling?
  }

  /** What unpausing writes back to the frame timer it has read. */
  function Resumed(s: State): real {
    s.frame_timer + (s.now + s.drift - s.current_pts)
  }

  /** Unpausing writes the frame timer and sets the clock of the picture shown to now. */
  function Toggled(s: State, timer: real, enosys: bool): State {
    var c := if enosys then s.current_pts else s.drift + s.now;
    s.(frame_timer := timer, current_pts := c, drift := c - s.now, paused := !s.paused)
  }

  ghost function After(s: State, e: Event): State
    requires InRing(s) && Enabled(s, e)
  {
    if e.Tick? then s.(now := s.now + e.dt)
    else if Queues(e) then AfterQueueing(s, e)
    else if Flushes(e) then AfterFlushing(s, e)
    else AfterMain(s, e)
  }

  /** The steps of the video thread on the way of a picture into the ring. */
  predicate Queues(e: Event) {
    e.Decode? || e.FindRoom? || e.Fill? || e.MoveWrite? || e.TimerRead? || e.TimerWrite? || e.Commit?
  }

  /** Its other steps: single-stepping, flushing, ending. */
  predicate Flushes(e: Event) {
    || e.StepOver? || e.StepPause? || e.StepRead? || e.StepWrite?
    || e.StartFlush? || e.ZeroNext? || e.EndFlush? || e.Abort?
  }

  predicate ByMain(e: Event) {
    !e.Tick? && !Queues(e) && !Flushes(e)
  }

  ghost function AfterQueueing(s: State, e: Event): State
    requires InRing(s) && Enabled(s, e) && Queues(e)
  {
    match e
    case Decode(id, pts) => s.(producer := Waiting(id, pts))
    case FindRoom => s.(producer := Room(s.producer.id, s.producer.pts))
    case Fill =>
      var p := s.slots[s.windex].(id := s.producer.id, pts := s.producer.pts);
      s.(slots := s.slots[s.windex := p], producer := Filled(s.producer.id, s.producer.pts))
    case MoveWrite => s.(windex := Next(s.windex), producer := Bumped(s.windex, s.producer.id, s.producer.pts))
    case TimerRead(sync) =>
      var delay := NominalDelay(s, s.producer.pts);
      s.(last_pts := s.producer.pts, last_delay := delay,
         producer := Timing(s.producer.v, s.producer.id, s.frame_timer, s.frame_timer + Synced(delay, sync)))
    case TimerWrite => s.(frame_timer := s.producer.sum, producer := Timed(s.producer.v, s.producer.id, s.producer.sum))
    case Commit =>
      s.(slots := s.slots[s.producer.v := s.slots[s.producer.v].(target := TargetTime(s))], size := s.size + 1,
         queued := s.queued + [s.producer.id], producer := Queued)
  }

  /** What compute_target_time returns once the frame timer is written. */
  function TargetTime(s: State): real
    requires s.producer.Timed?
  {
    if s.keeps_sum then s.producer.sum else s.frame_timer
  }

  ghost function AfterFlushing(s: State, e: Event): State
    requires InRing(s) && Enabled(s, e) && Flushes(e)
  {
    match e
    case StepOver => s.(producer := Idle)
    case StepPause => s.(paused := true, producer := Idle)
    case StepRead => s.(producer := Stepping(s.frame_timer, Resumed(s)))
    case StepWrite(enosys) => Toggled(s, s.producer.sum, enosys).(producer := Idle)
    case StartFlush => s.(producer := Flushing(0))
    case ZeroNext =>
      var k := s.producer.zeroed;
      s.(slots := s.slots[k := s.slots[k].(target := 0.0)], producer := Flushing(k + 1))
    case EndFlush => s.(last_pts := NOPTS, last_delay := 0.0, frame_timer := s.now, producer := Idle)
    case Abort =>
      if s.producer.Flushing? then
        s.(last_pts := NOPTS, last_delay := 0.0, frame_timer := s.now, producer := Ended(true))
      else s.(producer := Ended(false))
  }

  ghost function AfterMain(s: State, e: Event): State
    requires InRing(s) && Enabled(s, e) && ByMain(e)
  {
    match e
    case Hold => s.(consumer := Holds(s.rindex, s.now))
    case TooEarly => s.(consumer := Out)
    case FindDue =>
      var pts := s.slots[s.consumer.v].pts;
      s.(current_pts := pts, drift := pts - s.consumer.time, consumer := Due(s.consumer.v, Reads(s, s.consumer.v)))
    case SeeNext => s.(consumer := Compares(s.consumer.v, s.consumer.seen))
    case SeeNoNext => s.(consumer := Shows(s.consumer.v))
    case ReadHeld => s.(consumer := WithHeld(s.consumer, Reads(s, s.consumer.v)))
    case KeepHeld => s.(consumer := WithHeld(s.consumer, s.consumer.seen))
    case ReadNext =>
      var next := Reads(s, Next(s.consumer.v));
      s.(consumer := if s.consumer.HasHeld? then Compared(s.consumer.v, s.consumer.held, next)
                     else HasNext(s.consumer.v, s.consumer.seen, next))
    case Judge => s.(consumer := Shows(s.consumer.v))
    case MoveRead =>
      s.(shown := s.shown + [s.slots[s.consumer.v].id], rindex := Next(s.rindex), consumer := Passed)
    case Release => s.(size := s.size - 1, consumer := Out)
    case Pause => s.(paused := true)
    case ToggleRead => s.(consumer := Toggling(s.frame_timer, Resumed(s)))
    case ToggleWrite(enosys) => Toggled(s, s.consumer.sum, enosys).(consumer := Out)
  }

  function WithHeld(c: Consumer, r: Reading): Consumer
    requires c.Compares? || c.HasNext?
  {
    if c.HasNext? then Compared(c.v, r, c.next) else HasHeld(c.v, r)
  }

  ghost predicate Initial(s: State) {
    && Shaped(s) && s.size == 0 && s.rindex == 0 && s.windex == 0
    && s.frame_timer == 0.0 && s.last_pts == 0.0 && s.last_delay == 0.0
    && s.now >= 0.0 && s.current_pts == 0.0 && s.drift == 0.0
    && s.producer == Idle && s.consumer == Out && s.queued == [] && s.shown == []
  }

  // ---- What every step keeps: sizes, indices and contents ----

  /** Pictures in the ring: from the next to be shown to the last queued. */
  function Pending(s: State): int {
    |s.queued| - |s.shown|
  }

  predicate Reserves(p: Producer) {
    p.Bumped? || p.Timing? || p.Timed?
  }

  /** The slot behind the pending pictures. */
  function FreeSlot(s: State): nat {
    if Pending(s) == 1 then Next(s.rindex) else s.rindex
  }

  ghost predicate Counts(s: State) {
    && InRing(s)
    && s.size == Pending(s) + (if s.consumer == Passed then 1 else 0)
    && 0 <= s.size <= QUEUE_SIZE && 0 <= Pending(s)
    && s.windex == (if Reserves(s.producer) then Next(FreeSlot(s)) else FreeSlot(s))
    && (s.producer.Room? || s.producer.Filled? || Reserves(s.producer) ==> s.size < QUEUE_SIZE)
    && (Reserves(s.producer) ==> s.producer.v == FreeSlot(s))
    && (s.producer.Flushing? ==> s.producer.zeroed <= QUEUE_SIZE)
    && (Holding(s.consumer) ==> s.consumer.v == s.rindex && 1 <= Pending(s))
    && (Comparing(s.consumer) ==> s.size == QUEUE_SIZE)
  }

  predicate Comparing(c: Consumer) {
    c.Compares? || c.HasHeld? || c.HasNext? || c.Compared?
  }

  /** The slots hold the pending pictures, and what was shown is what was queued first. */
  ghost predicate Contents(s: State)
    requires Counts(s)
  {
    && (1 <= Pending(s) ==> s.slots[s.rindex].id == s.queued[|s.shown|])
    && (Pending(s) == 2 ==> s.slots[Next(s.rindex)].id == s.queued[|s.shown| + 1])
    && s.shown == s.queued[..|s.shown|]
    && (s.producer.Filled? ==> s.slots[s.windex].id == s.producer.id)
    && (Reserves(s.producer) ==> s.slots[s.producer.v].id == s.producer.id)
  }

  lemma CountsKeptByQueueing(s: State, e: Event)
    requires Counts(s) && Enabled(s, e) && Queues(e)
    ensures Counts(AfterQueueing(s, e))
  {
  }

  lemma CountsKeptByFlushing(s: State, e: Event)
    requires Counts(s) && Enabled(s, e) && Flushes(e)
    ensures Counts(AfterFlushing(s, e))
  {
  }

  lemma CountsKeptByMain(s: State, e: Event)
    requires Counts(s) && Enabled(s, e) && ByMain(e)
    ensures Counts(AfterMain(s, e))
  {
  }

  lemma CountsKept(s: State, e: Event)
    requires Counts(s) && Enabled(s, e)
    ensures Counts(After(s, e))
  {
    if Queues(e) {
      CountsKeptByQueueing(s, e);
    } else if Flushes(e) {
      CountsKeptByFlushing(s, e);
    } else if !e.Tick? {
      CountsKeptByMain(s, e);
    }
  }

  lemma ContentsKeptByQueueing(s: State, e: Event)
    requires Counts(s) && Contents(s) && Enabled(s, e) && Queues(e) && Counts(AfterQueueing(s, e))
    ensures Contents(AfterQueueing(s, e))
  {
  }

  lemma ContentsKeptByFlushing(s: State, e: Event)
    requires Counts(s) && Contents(s) && Enabled(s, e) && Flushes(e) && Counts(AfterFlushing(s, e))
    ensures Contents(AfterFlushing(s, e))
  {
  }

  lemma ContentsKeptByMain(s: State, e: Event)
    requires Counts(s) && Contents(s) && Enabled(s, e) && ByMain(e) && Counts(AfterMain(s, e))
    ensures Contents(AfterMain(s, e))
  {
    if e.MoveRead? {
      assert s.queued[..|s.shown|] + [s.queued[|s.shown|]] == s.queued[..|s.shown| + 1];
    }
  }

  lemma ContentsKept(s: State, e: Event)
    requires Counts(s) && Contents(s) && Enabled(s, e)
    ensures Counts(After(s, e)) && Contents(After(s, e))
  {
    CountsKept(s, e);
    if Queues(e) {
      ContentsKeptByQueueing(s, e);
    } else if Flushes(e) {
      ContentsKeptByFlushing(s, e);
    } else if !e.Tick? {
      ContentsKeptByMain(s, e);
    }
  }

  // ---- What the steps keep of the clocks ----

  /** The time the next target is or will build on: the sum about to be written or returned, if there is one. */
  function Bound(s: State): real {
    if s.producer.Timing? || s.producer.Stepping? then s.producer.sum
    else if s.producer.Timed? then TargetTime(s)
    else s.frame_timer
  }

  /** Pending targets do not exceed t. */
  ghost predicate Behind(s: State, t: real)
    requires InRing(s)
  {
    && (1 <= Pending(s) ==> s.slots[s.rindex].target <= t)
    && (Pending(s) == 2 ==> s.slots[Next(s.rindex)].target <= t)
  }

  ghost predicate Targets(s: State)
    requires InRing(s)
  {
    && (1 <= Pending(s) ==> 0.0 <= s.slots[s.rindex].target)
    && (Pending(s) == 2 ==> 0.0 <= s.slots[Next(s.rindex)].target)
    && (0 < Zeroed(s) ==> s.slots[0].target == 0.0)
    && (1 < Zeroed(s) ==> s.slots[1].target == 0.0)
    && (s.producer.Ended? || s.producer.Flushing? || Behind(s, Bound(s)))
    && (s.producer.Timed? ==> TargetTime(s) <= s.frame_timer)
    && (Pending(s) == 2 && Zeroed(s) <= Next(s.rindex) ==> s.slots[s.rindex].target <= s.slots[Next(s.rindex)].target)
  }

  /** A reading of the held picture's clock is its clock, or was before a flush zeroed it. */
  ghost predicate HeldKnown(s: State, r: Reading)
    requires InRing(s)
  {
    && 0.0 <= r.value && (r.zeroed ==> r.value == 0.0)
    && (!r.zeroed && Zeroed(s) <= s.rindex ==> r.value == s.slots[s.rindex].target)
    && (!r.zeroed && Pending(s) == 2 && Zeroed(s) <= Next(s.rindex) ==> r.value <= s.slots[Next(s.rindex)].target)
  }

  ghost predicate Readings(s: State)
    requires InRing(s)
  {
    match s.consumer
    case Due(_, seen) => HeldKnown(s, seen)
    case Compares(_, seen) => HeldKnown(s, seen)
    case HasHeld(_, r) => HeldKnown(s, r)
    case HasNext(v, seen, next) =>
      && HeldKnown(s, seen) && 0.0 <= next.value && (next.zeroed ==> next.value == 0.0 && Next(v) < Zeroed(s))
      && (!next.zeroed ==> s.slots[v].target <= next.value && seen.value <= next.value)
    case Compared(_, r, next) =>
      && 0.0 <= r.value && (r.zeroed ==> r.value == 0.0) && (next.zeroed ==> next.value == 0.0)
      && (!next.zeroed ==> r.value <= next.value)
    case _ => true
  }

  ghost predicate Timers(s: State) {
    && s.current_pts - s.drift <= s.now && (s.consumer.Holds? ==> s.consumer.time <= s.now)
    && 0.0 <= s.last_delay && 0.0 <= s.now && 0.0 <= s.frame_timer
    && (s.producer.Timing? || s.producer.Stepping? ==> 0.0 <= s.producer.read <= s.producer.sum)
    && (s.producer.Timed? ==> 0.0 <= s.producer.sum)
    && (s.consumer.Toggling? ==> 0.0 <= s.consumer.read <= s.consumer.sum)
  }

  ghost predicate Clocks(s: State)
    requires InRing(s)
  {
    Timers(s) && Targets(s) && Readings(s)
  }

  /** The sum an unpausing main thread is about to write is not below a pending target, or one that has been fixed
      already; or it will be overwritten. */
  ghost predicate Lands(s: State)
    requires InRing(s) && s.consumer.Toggling?
  {
    || s.producer.Ended? || s.producer.Flushing? || s.producer.Timing? || s.producer.Stepping?
    || (Behind(s, s.consumer.sum) && (s.producer.Timed? && s.keeps_sum ==> s.producer.sum <= s.consumer.sum))
  }

  lemma TimersKeptByQueueing(s: State, e: Event)
    requires Counts(s) && Timers(s) && Enabled(s, e) && Queues(e)
    ensures Timers(AfterQueueing(s, e))
  {
  }

  lemma TimersKeptByFlushing(s: State, e: Event)
    requires Counts(s) && Timers(s) && Enabled(s, e) && Flushes(e)
    ensures Timers(AfterFlushing(s, e))
  {
  }

  lemma TimersKeptByMain(s: State, e: Event)
    requires Counts(s) && Timers(s) && Enabled(s, e) && ByMain(e)
    ensures Timers(AfterMain(s, e))
  {
  }

  lemma TimersKept(s: State, e: Event)
    requires Counts(s) && Timers(s) && Enabled(s, e)
    ensures Timers(After(s, e))
  {
    if Queues(e) {
      TimersKeptByQueueing(s, e);
    } else if Flushes(e) {
      TimersKeptByFlushing(s, e);
    } else if !e.Tick? {
      TimersKeptByMain(s, e);
    }
  }

  lemma TargetsKeptByQueueing(s: State, e: Event)
    requires Counts(s) && Timers(s) && Targets(s) && Enabled(s, e) && Queues(e) && InRing(AfterQueueing(s, e))
    ensures Targets(AfterQueueing(s, e))
  {
  }

  lemma TargetsKeptByFlushing(s: State, e: Event)
    requires Counts(s) && Timers(s) && Targets(s) && Enabled(s, e) && Flushes(e) && InRing(AfterFlushing(s, e))
    ensures Targets(AfterFlushing(s, e))
  {
  }

  lemma TargetsKeptByMain(s: State, e: Event)
    requires Counts(s) && Timers(s) && Targets(s) && Enabled(s, e) && ByMain(e) && InRing(AfterMain(s, e))
    ensures Targets(AfterMain(s, e)) <==> (e.ToggleWrite? ==> Lands(s))
  {
  }

  lemma ReadingsKeptByQueueing(s: State, e: Event)
    requires Counts(s) && Targets(s) && Readings(s) && Enabled(s, e) && Queues(e) && InRing(AfterQueueing(s, e))
    ensures Readings(AfterQueueing(s, e))
  {
  }

  lemma ReadingsKeptByZeroing(s: State)
    requires Counts(s) && Targets(s) && Readings(s) && Enabled(s, ZeroNext) && InRing(AfterFlushing(s, ZeroNext))
    ensures Readings(AfterFlushing(s, ZeroNext))
  {
  }

  /** The readings do not depend on how far the video thread is, but for the slots zeroed. */
  lemma ReadingsStay(s: State, s': State)
    requires InRing(s) && Readings(s) && InRing(s') && Zeroed(s') == Zeroed(s)
    requires s'.slots == s.slots && s'.rindex == s.rindex && s'.consumer == s.consumer && s'.queued == s.queued
    requires s'.shown == s.shown
    ensures Readings(s')
  {
  }

  lemma ReadingsKeptByFlushing(s: State, e: Event)
    requires Counts(s) && Targets(s) && Readings(s) && Enabled(s, e) && Flushes(e) && InRing(AfterFlushing(s, e))
    ensures Readings(AfterFlushing(s, e))
  {
    if e.ZeroNext? {
      ReadingsKeptByZeroing(s);
    } else if e.EndFlush? {
      assert !Holding(s.consumer);
    } else {
      ReadingsStay(s, AfterFlushing(s, e));
    }
  }

  lemma ReadingsKeptByReading(s: State, e: Event)
    requires Counts(s) && Targets(s) && Readings(s) && Enabled(s, e) && (e.ReadHeld? || e.KeepHeld? || e.ReadNext?)
    requires InRing(AfterMain(s, e))
    ensures Readings(AfterMain(s, e))
  {
  }

  lemma ReadingsKeptByMain(s: State, e: Event)
    requires Counts(s) && Targets(s) && Readings(s) && Enabled(s, e) && ByMain(e) && InRing(AfterMain(s, e))
    ensures Readings(AfterMain(s, e))
  {
    if e.ReadHeld? || e.KeepHeld? || e.ReadNext? {
      ReadingsKeptByReading(s, e);
    }
  }

  /** Every step keeps the clocks, except unpausing with a sum below a pending target. */
  lemma ClocksKept(s: State, e: Event)
    requires Counts(s) && Clocks(s) && Enabled(s, e)
    ensures Counts(After(s, e))
    ensures Clocks(After(s, e)) <==> (e.ToggleWrite? ==> Lands(s))
  {
    CountsKept(s, e);
    TimersKept(s, e);
    if Queues(e) {
      TargetsKeptByQueueing(s, e);
      ReadingsKeptByQueueing(s, e);
    } else if Flushes(e) {
      TargetsKeptByFlushing(s, e);
      ReadingsKeptByFlushing(s, e);
    } else if !e.Tick? {
      TargetsKeptByMain(s, e);
      ReadingsKeptByMain(s, e);
    }
  }

  ghost predicate Inv(s: State) {
    Counts(s) && Contents(s) && Clocks(s)
  }

  // ---- Whole runs ----

  /** es can happen one after the other from s. */
  ghost predicate Possible(s: State, es: seq<Event>)
    decreases |es|
  {
    es == [] || (InRing(s) && Enabled(s, es[0]) && Possible(After(s, es[0]), es[1..]))
  }

  ghost function Reached(s: State, es: seq<Event>): State
    requires Possible(s, es)
    decreases |es|
  {
    if es == [] then s else Reached(After(s, es[0]), es[1..])
  }

  /** No unpausing in the run writes a sum below a pending target. */
  ghost predicate AllLand(s: State, es: seq<Event>)
    requires Possible(s, es)
    decreases |es|
  {
    es == [] || ((es[0].ToggleWrite? ==> Lands(s)) && AllLand(After(s, es[0]), es[1..]))
  }

  lemma {:induction false} RunKeepsContents(s: State, es: seq<Event>)
    requires Counts(s) && Contents(s) && Timers(s) && Possible(s, es)
    ensures var r := Reached(s, es); Counts(r) && Contents(r) && Timers(r)
    decreases |es|
  {
    if es == [] {
    } else {
      ContentsKept(s, es[0]);
      TimersKept(s, es[0]);
      RunKeepsContents(After(s, es[0]), es[1..]);
    }
  }

  lemma {:induction false} RunKeepsInv(s: State, es: seq<Event>)
    requires Inv(s) && Possible(s, es) && AllLand(s, es)
    ensures Inv(Reached(s, es))
    decreases |es|
  {
    if es == [] {
    } else {
      ContentsKept(s, es[0]);
      ClocksKept(s, es[0]);
      RunKeepsInv(After(s, es[0]), es[1..]);
    }
  }

  /** The slot the video thread is about to write, is writing, or is completing. */
  function Written(s: State): int {
    if s.producer.Room? || s.producer.Filled? then s.windex
    else if Reserves(s.producer) then s.producer.v
    else -1
  }

  /** The slots the main thread may read: the one it holds, and the next one while it compares the two. */
  predicate MayRead(s: State, v: int) {
    Holding(s.consumer) && (v == s.consumer.v || (Comparing(s.consumer) && v == Next(s.consumer.v)))
  }

  /** In every reachable state of every interleaving: the video thread never fills or completes a slot the main
      thread may be reading, the size stays within 0..2, and pictures leave in exactly the order they were queued. */
  lemma RingIsSafe(s0: State, es: seq<Event>)
    requires Initial(s0) && Possible(s0, es)
    ensures var s := Reached(s0, es);
      && InRing(s) && 0 <= s.size <= QUEUE_SIZE
      && !MayRead(s, Written(s))
      && s.shown <= s.queued && |s.queued| <= |s.shown| + QUEUE_SIZE
      && (s.consumer.Shows? ==> |s.shown| < |s.queued| && s.slots[s.consumer.v].id == s.queued[|s.shown|])
  {
    RunKeepsContents(s0, es);
  }

  /** The handler's assertion, once it has read both clocks, holds exactly if it is not the case that the next clock
      was read after a flush had zeroed it and this one before. */
  lemma AssertionHoldsIff(s0: State, es: seq<Event>)
    requires Initial(s0) && Possible(s0, es) && AllLand(s0, es)
    ensures var c := Reached(s0, es).consumer;
      c.Compared? ==> (c.next.value >= c.held.value <==> !(c.next.zeroed && !c.held.zeroed && c.held.value > 0.0))
  {
    RunKeepsInv(s0, es);
    assert Inv(Reached(s0, es));
  }

  /** When the next clock is read first, the assertion fails only if the flush is between its two stores at the
      moment the other is read; so it never fails if those stores are one step. */
  lemma NextFirstFailsIff(s0: State, es: seq<Event>)
    requires Initial(s0) && Possible(s0, es) && AllLand(s0, es)
    requires Reached(s0, es).consumer.HasNext? && InRing(Reached(s0, es))
    ensures var s := Reached(s0, es); var c := After(s, ReadHeld).consumer;
      && c.Compared?
      && (c.next.value < c.held.value <==>
            s.producer == Flushing(1) && s.rindex == 1 && s.consumer.next.zeroed && s.slots[1].target > 0.0)
  {
    RunKeepsInv(s0, es);
    NextFirst(Reached(s0, es));
  }

  lemma NextFirst(s: State)
    requires Counts(s) && Clocks(s) && s.consumer.HasNext?
    ensures s.consumer.next.value < s.slots[s.consumer.v].target <==>
              s.producer == Flushing(1) && s.rindex == 1 && s.consumer.next.zeroed && s.slots[1].target > 0.0
  {
  }

  // ---- The frame timer ----

  /** The step writes the frame timer, and another write came after the value it adds to was read. */
  ghost predicate Stale(s: State, e: Event)
    requires InRing(s) && Enabled(s, e)
  {
    || (e.TimerWrite? && s.producer.read != s.frame_timer)
    || (e.StepWrite? && s.producer.read != s.frame_timer)
    || (e.ToggleWrite? && s.consumer.read != s.frame_timer)
  }

  /** An unpausing that overwrites no other write lands. */
  lemma FreshLands(s: State, enosys: bool)
    requires Counts(s) && Clocks(s) && Enabled(s, ToggleWrite(enosys)) && !Stale(s, ToggleWrite(enosys))
    ensures Lands(s)
  {
  }

  /** No write of the run is lost. */
  ghost predicate NoneStale(s: State, es: seq<Event>)
    requires Possible(s, es)
    decreases |es|
  {
    es == [] || (!Stale(s, es[0]) && NoneStale(After(s, es[0]), es[1..]))
  }

  /** So in a run without lost writes every unpausing lands. */
  lemma {:induction false} FreshRunsLand(s: State, es: seq<Event>)
    requires Inv(s) && Possible(s, es) && NoneStale(s, es)
    ensures AllLand(s, es)
    decreases |es|
  {
    if es == [] {
    } else {
      if es[0].ToggleWrite? {
        FreshLands(s, es[0].enosys);
      }
      ContentsKept(s, es[0]);
      ClocksKept(s, es[0]);
      FreshRunsLand(After(s, es[0]), es[1..]);
    }
  }

  /** The frame timer only goes back when a flush ends, which outside of an abort is when the ring has drained, or
      when a write is lost. */
  lemma TimerGoesBackOnlyIf(s0: State, es: seq<Event>, e: Event)
    requires Initial(s0) && Possible(s0, es) && InRing(Reached(s0, es)) && Enabled(Reached(s0, es), e)
    ensures var s := Reached(s0, es);
      && (After(s, e).frame_timer < s.frame_timer ==>
            Stale(s, e) || (s.producer == Flushing(QUEUE_SIZE) && (e == EndFlush || e == Abort)))
      && (e == EndFlush ==> s.shown == s.queued)
  {
    RunKeepsContents(s0, es);
    TimerStep(Reached(s0, es), e);
  }

  lemma TimerStep(s: State, e: Event)
    requires Counts(s) && Timers(s) && Enabled(s, e)
    ensures After(s, e).frame_timer < s.frame_timer ==>
              Stale(s, e) || (s.producer == Flushing(QUEUE_SIZE) && (e == EndFlush || e == Abort))
  {
    if Stale(s, e) {
    } else if Queues(e) {
      TimerOfQueueing(s, e);
    } else if ByMain(e) {
      TimerOfMain(s, e);
    }
  }

  lemma TimerOfQueueing(s: State, e: Event)
    requires Counts(s) && Timers(s) && Enabled(s, e) && Queues(e) && !Stale(s, e)
    ensures s.frame_timer <= AfterQueueing(s, e).frame_timer
  {
  }

  lemma TimerOfMain(s: State, e: Event)
    requires Counts(s) && Timers(s) && Enabled(s, e) && ByMain(e) && !Stale(s, e)
    ensures s.frame_timer <= AfterMain(s, e).frame_timer
  {
  }

  // ---- What becomes of a run in which an unpausing does not land ----

  /** The assertion is about to fail, though no flush has zeroed the next clock. */
  predicate Fails(s: State) {
    s.consumer.Compared? && s.consumer.next.value < s.consumer.held.value && !s.consumer.next.zeroed
  }

  /** From here on the assertion can fail without a flush, even if every unpausing to come lands. */
  ghost predicate Doomed(s: State) {
    exists es :: Possible(s, es) && AllLand(s, es) && Fails(Reached(s, es))
  }

  /** While the clocks are in order the assertion can only fail by a flush. */
  lemma InOrder(s: State)
    requires Inv(s)
    ensures !Doomed(s)
  {
    forall es | Possible(s, es) && AllLand(s, es) ensures !Fails(Reached(s, es)) {
      RunKeepsInv(s, es);
    }
  }

  /** If R holds of s then of its successor. */
  ghost predicate Keeps(R: State -> bool, s: State, e: Event) {
    R(s) && InRing(s) && Enabled(s, e) ==> R(After(s, e))
  }

  /** R holds of all that can follow a state it holds of, up to the next unpausing. */
  ghost predicate Closed(R: State -> bool) {
    forall s, e :: Keeps(R, s, e) || e.ToggleWrite?
  }

  /** R holds of all that can follow a state it holds of. */
  ghost predicate AlwaysKept(R: State -> bool) {
    forall s, e :: Keeps(R, s, e)
  }

  lemma Step(R: State -> bool, s: State, e: Event, s': State)
    requires Closed(R) && R(s) && InRing(s) && Enabled(s, e) && !e.ToggleWrite? && s' == After(s, e)
    ensures R(s')
  {
    assert Keeps(R, s, e);
  }

  /** s can be reached from s0 with every unpausing landing. */
  ghost predicate LandsAt(s0: State, s: State) {
    exists es :: Possible(s0, es) && AllLand(s0, es) && Reached(s0, es) == s
  }

  lemma {:induction false} OneMoreEvent(s0: State, es: seq<Event>, e: Event)
    requires Possible(s0, es) && InRing(Reached(s0, es)) && Enabled(Reached(s0, es), e)
    ensures Possible(s0, es + [e]) && Reached(s0, es + [e]) == After(Reached(s0, es), e)
    ensures AllLand(s0, es) && (e.ToggleWrite? ==> Lands(Reached(s0, es))) ==> AllLand(s0, es + [e])
    decreases |es|
  {
    if es == [] {
      assert es + [e] == [e] && [e][1..] == [];
    } else {
      assert (es + [e])[1..] == es[1..] + [e];
      OneMoreEvent(After(s0, es[0]), es[1..], e);
    }
  }

  lemma LandsAtClosed(s0: State)
    ensures LandsAt(s0, s0) && Closed(s => LandsAt(s0, s))
  {
    assert Possible(s0, []) && AllLand(s0, []) && Reached(s0, []) == s0;
    var R := s => LandsAt(s0, s);
    forall s, e ensures Keeps(R, s, e) || e.ToggleWrite? {
      if R(s) && InRing(s) && Enabled(s, e) && !e.ToggleWrite? {
        var es :| Possible(s0, es) && AllLand(s0, es) && Reached(s0, es) == s;
        OneMoreEvent(s0, es, e);
      }
    }
  }

  /** The main thread is between events, and the one picture pending is due after t; no flush is under way. */
  ghost predicate OneAfter(s: State, t: real) {
    Counts(s) && s.consumer == Out && Pending(s) == 1 && Zeroed(s) == 0 && t < s.slots[s.rindex].target
  }

  /** How long the main thread has to wait for the next picture. */
  function Wait(s: State): (dt: real)
    requires s.rindex < |s.slots|
    ensures dt >= 0.0 && s.slots[s.rindex].target <= s.now + dt
  {
    if s.now < s.slots[s.rindex].target then s.slots[s.rindex].target - s.now else 0.0
  }

  /** The main thread has found picture v due after waiting for dt. */
  function Found(s: State, dt: real): State
    requires InRing(s)
  {
    var p, now := s.slots[s.rindex], s.now + dt;
    s.(now := now, current_pts := p.pts, drift := p.pts - now, consumer := Due(s.rindex, Reads(s, s.rindex)))
  }

  lemma Finds(R: State -> bool, s: State, dt: real)
    requires Closed(R) && R(s) && InRing(s) && s.consumer == Out && s.size != 0
    requires dt >= 0.0 && s.slots[s.rindex].target <= s.now + dt
    ensures R(Found(s, dt))
  {
    var s1 := s.(now := s.now + dt);
    var s2 := s1.(consumer := Holds(s.rindex, s1.now));
    Step(R, s, Tick(dt), s1);
    Step(R, s1, Hold, s2);
    Step(R, s2, FindDue, Found(s, dt));
  }

  /** The main thread has waited for the next of two pictures and read both clocks, the next one's first. */
  function BothRead(s: State, dt: real): State
    requires InRing(s)
  {
    Found(s, dt).(consumer := Compared(s.rindex, Reads(s, s.rindex), Reads(s, Next(s.rindex))))
  }

  lemma ReadsBoth(R: State -> bool, s: State, dt: real)
    requires Closed(R) && R(s) && InRing(s) && s.consumer == Out && s.size == 2
    requires dt >= 0.0 && s.slots[s.rindex].target <= s.now + dt
    ensures R(BothRead(s, dt))
  {
    Finds(R, s, dt);
    var s1, v := Found(s, dt), s.rindex;
    var s2 := s1.(consumer := Compares(v, Reads(s, v)));
    var s3 := s1.(consumer := HasNext(v, Reads(s, v), Reads(s, Next(v))));
    Step(R, s1, SeeNext, s2);
    Step(R, s2, ReadNext, s3);
    Step(R, s3, ReadHeld, BothRead(s, dt));
  }

  /** Two pictures in the wrong order are compared once the first is due. */
  lemma WrongOrder(R: State -> bool, s: State) returns (f: State)
    requires Closed(R) && R(s) && Counts(s) && s.consumer == Out && Pending(s) == 2 && Zeroed(s) == 0
    requires s.slots[Next(s.rindex)].target < s.slots[s.rindex].target
    ensures R(f) && Fails(f)
  {
    ReadsBoth(R, s, Wait(s));
    f := BothRead(s, Wait(s));
  }

  lemma WrongOnceQueued(R: State -> bool, s: State) returns (f: State)
    requires Closed(R) && R(s) && s.producer.Timed? && OneAfter(s, TargetTime(s))
    ensures R(f) && Fails(f)
  {
    CountsKept(s, Commit);
    Step(R, s, Commit, After(s, Commit));
    f := WrongOrder(R, After(s, Commit));
  }

  /** A picture without delay gets the frame timer for its target. */
  lemma WrongOnceTimed(R: State -> bool, s: State) returns (f: State)
    requires Closed(R) && R(s) && s.producer.Bumped? && OneAfter(s, s.frame_timer)
    ensures R(f) && Fails(f)
  {
    CountsKept(s, TimerRead(Drop));
    var s1 := After(s, TimerRead(Drop));
    Step(R, s, TimerRead(Drop), s1);
    CountsKept(s1, TimerWrite);
    Step(R, s1, TimerWrite, After(s1, TimerWrite));
    f := WrongOnceQueued(R, After(s1, TimerWrite));
  }

  lemma WrongOnceFilled(R: State -> bool, s: State) returns (f: State)
    requires Closed(R) && R(s) && s.producer.Filled? && OneAfter(s, s.frame_timer)
    ensures R(f) && Fails(f)
  {
    CountsKept(s, MoveWrite);
    Step(R, s, MoveWrite, After(s, MoveWrite));
    f := WrongOnceTimed(R, After(s, MoveWrite));
  }

  lemma WrongOnceRoom(R: State -> bool, s: State) returns (f: State)
    requires Closed(R) && R(s) && s.producer.Room? && OneAfter(s, s.frame_timer)
    ensures R(f) && Fails(f)
  {
    CountsKept(s, Fill);
    Step(R, s, Fill, After(s, Fill));
    f := WrongOnceFilled(R, After(s, Fill));
  }

  lemma WrongOnceDecoded(R: State -> bool, s: State) returns (f: State)
    requires Closed(R) && R(s) && s.producer.Waiting? && OneAfter(s, s.frame_timer)
    ensures R(f) && Fails(f)
  {
    CountsKept(s, FindRoom);
    Step(R, s, FindRoom, After(s, FindRoom));
    f := WrongOnceRoom(R, After(s, FindRoom));
  }

  /** The picture the main thread holds has left the ring. */
  function Left(s: State): State
    requires InRing(s) && Holding(s.consumer)
  {
    s.(shown := s.shown + [s.slots[s.consumer.v].id], rindex := Next(s.rindex), size := s.size - 1, consumer := Out)
  }

  lemma Leaves(R: State -> bool, s: State)
    requires Closed(R) && R(s) && InRing(s) && s.consumer.Shows? && !HoldsMutex(s.producer)
    ensures R(Left(s))
  {
    var s1 := s.(shown := s.shown + [s.slots[s.consumer.v].id], rindex := Next(s.rindex), consumer := Passed);
    Step(R, s, MoveRead, s1);
    Step(R, s1, Release, Left(s));
  }

  /** The main thread shows the first of two pictures. */
  lemma WrongOnceShown(R: State -> bool, s: State) returns (f: State)
    requires Closed(R) && R(s) && s.producer.Waiting? && Counts(s) && s.consumer == Out && Pending(s) == 2
    requires s.frame_timer < s.slots[Next(s.rindex)].target
    ensures R(f) && Fails(f)
  {
    ReadsBoth(R, s, Wait(s));
    var s1 := BothRead(s, Wait(s));
    var s2 := s1.(consumer := Shows(s.rindex));
    Step(R, s1, Judge, s2);
    Leaves(R, s2);
    f := WrongOnceDecoded(R, Left(s2));
  }

  /** The last pending picture is due after the time the frame timer has been set back to. */
  ghost predicate SetBack(s: State) {
    && Counts(s) && s.consumer == Out && 1 <= Pending(s)
    && !s.producer.Ended? && !s.producer.Flushing? && !s.producer.Timing? && !s.producer.Stepping?
    && s.frame_timer < s.slots[if Pending(s) == 2 then Next(s.rindex) else s.rindex].target
  }

  /** Wherever the video thread stands, it can then queue a picture that is due earlier. */
  lemma {:induction false} SetBackFails(R: State -> bool, s: State) returns (f: State)
    requires Closed(R) && R(s) && SetBack(s) && (s.producer.Timed? ==> TargetTime(s) <= s.frame_timer)
    ensures R(f) && Fails(f)
    decreases if s.producer == Queued then 2 else if s.producer == Idle then 1 else 0
  {
    match s.producer
    case Queued =>
      CountsKept(s, StepOver);
      Step(R, s, StepOver, After(s, StepOver));
      f := SetBackFails(R, After(s, StepOver));
    case Idle =>
      CountsKept(s, Decode(0, 0.0));
      Step(R, s, Decode(0, 0.0), After(s, Decode(0, 0.0)));
      f := SetBackFails(R, After(s, Decode(0, 0.0)));
    case Waiting(_, _) =>
      if Pending(s) == 2 {
        f := WrongOnceShown(R, s);
      } else {
        f := WrongOnceDecoded(R, s);
      }
    case Room(_, _) => f := WrongOnceRoom(R, s);
    case Filled(_, _) => f := WrongOnceFilled(R, s);
    case Bumped(_, _, _) => f := WrongOnceTimed(R, s);
    case Timed(_, _, _) => f := WrongOnceQueued(R, s);
  }

  /** The picture being queued gets the sum for its target, which the frame timer has been set back below. */
  lemma QueuedTooLate(R: State -> bool, s: State) returns (f: State)
    requires Closed(R) && R(s) && Counts(s) && s.consumer == Out && s.producer.Timed? && s.keeps_sum
    requires s.frame_timer < s.producer.sum
    ensures R(f) && Fails(f)
  {
    CountsKept(s, Commit);
    Step(R, s, Commit, After(s, Commit));
    f := SetBackFails(R, After(s, Commit));
  }

  lemma NotLandingDooms(s: State, e: Event)
    requires Inv(s) && Enabled(s, e) && e.ToggleWrite? && !Lands(s)
    ensures Doomed(After(s, e))
  {
    var s1 := After(s, e);
    CountsKept(s, e);
    LandsAtClosed(s1);
    var f;
    if s.producer.Timed? && s.keeps_sum {
      f := QueuedTooLate(r => LandsAt(s1, r), s1);
    } else {
      f := SetBackFails(r => LandsAt(s1, r), s1);
    }
    assert LandsAt(s1, f);
  }

  /** An unpausing lands if and only if afterwards the assertion can only fail by a flush; no other step brings it about
      that it can fail otherwise. */
  lemma LandsIff(s: State, e: Event)
    requires Inv(s) && Enabled(s, e)
    ensures (e.ToggleWrite? ==> Lands(s)) <==> !Doomed(After(s, e))
  {
    if e.ToggleWrite? ==> Lands(s) {
      ContentsKept(s, e);
      ClocksKept(s, e);
      InOrder(After(s, e));
    } else {
      NotLandingDooms(s, e);
    }
  }

  /** No state of the run is one from which the assertion can fail without a flush. */
  ghost predicate NeverDoomed(s: State, es: seq<Event>)
    requires Possible(s, es)
    decreases |es|
  {
    !Doomed(s) && (es == [] || NeverDoomed(After(s, es[0]), es[1..]))
  }

  /** Every unpausing of a run lands if and only if the assertion never gets into danger other than by a flush. */
  lemma {:induction false} AllLandIff(s: State, es: seq<Event>)
    requires Inv(s) && Possible(s, es)
    ensures AllLand(s, es) <==> NeverDoomed(s, es)
    decreases |es|
  {
    InOrder(s);
    if es == [] {
    } else {
      LandsIff(s, es[0]);
      if es[0].ToggleWrite? ==> Lands(s) {
        ContentsKept(s, es[0]);
        ClocksKept(s, es[0]);
        AllLandIff(After(s, es[0]), es[1..]);
      } else {
        assert es[1..] == [] || !NeverDoomed(After(s, es[0]), es[1..]);
      }
    }
  }

  // ---- What one thread does while the other one rests ----

  /** es can happen one after the other from s, and leads to r. */
  ghost predicate Leads(s: State, es: seq<Event>, r: State) {
    Possible(s, es) && Reached(s, es) == r
  }

  /** The next step, and those behind it. */
  lemma Then(s: State, e: Event, t: State, es: seq<Event>, all: seq<Event>, r: State)
    requires InRing(s) && Enabled(s, e) && t == After(s, e) && all == [e] + es && Leads(t, es, r)
    ensures Leads(s, all, r)
  {
    assert all[0] == e && all[1..] == es;
  }

  lemma Done(s: State)
    ensures Leads(s, [], s)
  {
  }

  /** A picture is queued: it is due when the frame timer says, which moves on by the time from the last picture to this
      one, if that is between 0 and 10 seconds, and else by the delay before; not at all or twice as far to catch up
      with or wait for the master clock. */
  lemma QueuedAlone(s: State, id: nat, pts: real, sync: Sync, delay: real, due: real)
    requires InRing(s) && s.producer == Idle && s.size < QUEUE_SIZE
    requires delay == if 0.0 < pts - s.last_pts < 10.0 then pts - s.last_pts else s.last_delay
    requires due == s.frame_timer + if sync == Drop then 0.0 else if sync == Double then delay + delay else delay
    ensures Leads(s, [Decode(id, pts), FindRoom, Fill, MoveWrite, TimerRead(sync), TimerWrite, Commit], s.(
      slots := s.slots[s.windex := Picture(id, pts, due)], windex := 1 - s.windex, size := s.size + 1,
      frame_timer := due, last_pts := pts, last_delay := delay, queued := s.queued + [id], producer := Queued))
  {
    var r := s.(slots := s.slots[s.windex := Picture(id, pts, due)], windex := 1 - s.windex, size := s.size + 1,
                frame_timer := due, last_pts := pts, last_delay := delay, queued := s.queued + [id],
                producer := Queued);
    var placed := s.(slots := s.slots[s.windex := s.slots[s.windex].(id := id, pts := pts)], windex := 1 - s.windex,
                     producer := Bumped(s.windex, id, pts));
    var rest := [TimerRead(sync), TimerWrite, Commit];
    TimedAlone(s, placed, id, pts, sync, delay, due, r);
    PlacedAlone(s, placed, id, pts, rest, r);
    assert [Decode(id, pts), FindRoom, Fill, MoveWrite] + rest
        == [Decode(id, pts), FindRoom, Fill, MoveWrite, TimerRead(sync), TimerWrite, Commit];
  }

  lemma PlacedAlone(s: State, placed: State, id: nat, pts: real, rest: seq<Event>, r: State)
    requires InRing(s) && s.producer == Idle && s.size < QUEUE_SIZE && Leads(placed, rest, r)
    requires placed == s.(
      slots := s.slots[s.windex := s.slots[s.windex].(id := id, pts := pts)], windex := 1 - s.windex,
      producer := Bumped(s.windex, id, pts))
    ensures Leads(s, [Decode(id, pts), FindRoom, Fill, MoveWrite] + rest, r)
  {
    var s1 := s.(producer := Waiting(id, pts));
    var s2 := s.(producer := Room(id, pts));
    var s3 := s.(slots := placed.slots, producer := Filled(id, pts));
    var two := [Fill, MoveWrite] + rest;
    FilledAlone(s2, s3, placed, id, pts, rest, r);
    Then(s1, FindRoom, s2, two, [FindRoom] + two, r);
    Then(s, Decode(id, pts), s1, [FindRoom] + two, [Decode(id, pts)] + ([FindRoom] + two), r);
    assert [Decode(id, pts)] + ([FindRoom] + two) == [Decode(id, pts), FindRoom, Fill, MoveWrite] + rest;
  }

  lemma FilledAlone(s2: State, s3: State, placed: State, id: nat, pts: real, rest: seq<Event>, r: State)
    requires InRing(s2) && s2.producer == Room(id, pts) && Leads(placed, rest, r)
    requires s3 == s2.(
      slots := s2.slots[s2.windex := s2.slots[s2.windex].(id := id, pts := pts)], producer := Filled(id, pts))
    requires placed == s3.(windex := 1 - s3.windex, producer := Bumped(s3.windex, id, pts))
    ensures Leads(s2, [Fill, MoveWrite] + rest, r)
  {
    Then(s3, MoveWrite, placed, rest, [MoveWrite] + rest, r);
    Then(s2, Fill, s3, [MoveWrite] + rest, [Fill] + ([MoveWrite] + rest), r);
    assert [Fill] + ([MoveWrite] + rest) == [Fill, MoveWrite] + rest;
  }

  lemma TimedAlone(s: State, placed: State, id: nat, pts: real, sync: Sync, delay: real, due: real, r: State)
    requires InRing(s) && s.producer == Idle
    requires placed == s.(
      slots := s.slots[s.windex := s.slots[s.windex].(id := id, pts := pts)], windex := 1 - s.windex,
      producer := Bumped(s.windex, id, pts))
    requires delay == if 0.0 < pts - s.last_pts < 10.0 then pts - s.last_pts else s.last_delay
    requires due == s.frame_timer + if sync == Drop then 0.0 else if sync == Double then delay + delay else delay
    requires r == s.(
      slots := s.slots[s.windex := Picture(id, pts, due)], windex := 1 - s.windex, size := s.size + 1,
      frame_timer := due, last_pts := pts, last_delay := delay, queued := s.queued + [id], producer := Queued)
    ensures Leads(placed, [TimerRead(sync), TimerWrite, Commit], r)
  {
    var s5 := placed.(last_pts := pts, last_delay := delay, producer := Timing(s.windex, id, s.frame_timer, due));
    var s6 := s5.(frame_timer := due, producer := Timed(s.windex, id, due));
    assert After(s6, Commit).slots == r.slots;
    Done(r);
    Then(s6, Commit, r, [], [Commit], r);
    Then(s5, TimerWrite, s6, [Commit], [TimerWrite, Commit], r);
    Then(placed, TimerRead(sync), s5, [TimerWrite, Commit], [TimerRead(sync), TimerWrite, Commit], r);
  }

  /** The picture queued is shown as soon as it is due when the main thread looks, and from then on the video clock,
      drift + now, runs from its time; whatever the time dt the thread needs. */
  lemma ShownAlone(s: State, dt: real)
    requires InRing(s) && s.consumer == Out && s.size == 1 && !HoldsMutex(s.producer) && 0.0 <= dt
    ensures var p := s.slots[s.rindex];
      && (Possible(s, [Hold, Tick(dt), FindDue] + [SeeNoNext, MoveRead, Release]) <==> p.target <= s.now)
      && (p.target <= s.now ==> Leads(s, [Hold, Tick(dt), FindDue] + [SeeNoNext, MoveRead, Release], s.(
            now := s.now + dt, current_pts := p.pts, drift := p.pts - s.now, shown := s.shown + [p.id],
            rindex := 1 - s.rindex, size := 0)))
  {
    var p := s.slots[s.rindex];
    var found := s.(now := s.now + dt, current_pts := p.pts, drift := p.pts - s.now,
                    consumer := Due(s.rindex, Reads(s, s.rindex)));
    var r := s.(now := s.now + dt, current_pts := p.pts, drift := p.pts - s.now, shown := s.shown + [p.id],
                rindex := 1 - s.rindex, size := 0);
    var rest := [SeeNoNext, MoveRead, Release];
    if p.target <= s.now {
      LeavesAlone(found, p, r);
      FoundAlone(s, dt, p, found, rest, r);
    } else {
      NotDue(s, dt, rest);
    }
  }

  lemma LeavesAlone(s2: State, p: Picture, r: State)
    requires InRing(s2) && s2.consumer.Due? && s2.consumer.v == s2.rindex && p == s2.slots[s2.rindex]
    requires s2.size == 1 && !HoldsMutex(s2.producer)
    requires r == s2.(shown := s2.shown + [p.id], rindex := 1 - s2.rindex, size := 0, consumer := Out)
    ensures Leads(s2, [SeeNoNext, MoveRead, Release], r)
  {
    var s3 := s2.(consumer := Shows(s2.rindex));
    var s4 := s3.(shown := s2.shown + [p.id], rindex := 1 - s2.rindex, consumer := Passed);
    Done(r);
    Then(s4, Release, r, [], [Release], r);
    Then(s3, MoveRead, s4, [Release], [MoveRead, Release], r);
    Then(s2, SeeNoNext, s3, [MoveRead, Release], [SeeNoNext, MoveRead, Release], r);
  }

  lemma FoundAlone(s: State, dt: real, p: Picture, found: State, rest: seq<Event>, r: State)
    requires InRing(s) && s.consumer == Out && s.size != 0 && p == s.slots[s.rindex] && Leads(found, rest, r)
    requires 0.0 <= dt && found == s.(
      now := s.now + dt, current_pts := p.pts, drift := p.pts - s.now, consumer := Due(s.rindex, Reads(s, s.rindex)))
    requires p.target <= s.now
    ensures Leads(s, [Hold, Tick(dt), FindDue] + rest, r)
  {
    var s1 := s.(consumer := Holds(s.rindex, s.now));
    var s2 := s1.(now := s.now + dt);
    var one, two := [FindDue] + rest, [Tick(dt), FindDue] + rest;
    Then(s2, FindDue, found, rest, one, r);
    Then(s1, Tick(dt), s2, one, two, r);
    Then(s, Hold, s1, two, [Hold, Tick(dt), FindDue] + rest, r);
  }

  lemma NotDue(s: State, dt: real, rest: seq<Event>)
    requires InRing(s) && s.consumer == Out && s.size != 0 && s.now < s.slots[s.rindex].target
    ensures !Possible(s, [Hold, Tick(dt), FindDue] + rest)
  {
    var s1 := s.(consumer := Holds(s.rindex, s.now));
    var one, two, all := [FindDue] + rest, [Tick(dt), FindDue] + rest, [Hold, Tick(dt), FindDue] + rest;
    assert all[0] == Hold && all[1..] == two && two[0] == Tick(dt) && two[1..] == one && one[0] == FindDue;
    assert After(s, Hold) == s1;
    assert !Possible(s1.(now := s.now + dt), one);
  }

  /** Unpausing moves the frame timer on by the time since the picture was shown; the video clock goes on as if there
      had been no pause, or where the input cannot pause, from the time of the picture. */
  lemma UnpausedAlone(s: State, shownAt: real, enosys: bool)
    requires InRing(s) && s.consumer == Out && s.paused && s.current_pts - s.drift == shownAt
    ensures var es := [ToggleRead, ToggleWrite(enosys)];
      && Possible(s, es)
      && var r := Reached(s, es);
      && r.frame_timer - s.frame_timer == s.now - shownAt && !r.paused
      && r.drift + r.now == (if enosys then s.current_pts else s.drift + s.now) && r.current_pts == r.drift + r.now
      && r == s.(frame_timer := r.frame_timer, current_pts := r.current_pts, drift := r.drift, paused := false)
  {
    var sum := s.frame_timer + (s.now - shownAt);
    var s1 := s.(consumer := Toggling(s.frame_timer, sum));
    var c := if enosys then s.current_pts else s.drift + s.now;
    var s2 := s.(frame_timer := sum, current_pts := c, drift := c - s.now, paused := false);
    Done(s2);
    Then(s1, ToggleWrite(enosys), s2, [], [ToggleWrite(enosys)], s2);
    Then(s, ToggleRead, s1, [ToggleWrite(enosys)], [ToggleRead, ToggleWrite(enosys)], s2);
  }

  /** A flush of an empty ring leaves both target clocks at 0, no delay, and the frame timer at the time of day. */
  lemma FlushedAlone(s: State)
    requires InRing(s) && s.producer == Idle && s.size == 0
    ensures var p, q := s.slots[0], s.slots[1];
      Leads(s, [StartFlush, ZeroNext, ZeroNext, EndFlush], s.(
        slots := [Picture(p.id, p.pts, 0.0), Picture(q.id, q.pts, 0.0)], frame_timer := s.now,
        last_pts := NOPTS, last_delay := 0.0))
  {
    var p, q := s.slots[0].(target := 0.0), s.slots[1].(target := 0.0);
    var r := s.(slots := [p, q], frame_timer := s.now, last_pts := NOPTS, last_delay := 0.0);
    var s1 := s.(producer := Flushing(0));
    var s3 := s.(slots := [p, q], producer := Flushing(2));
    Done(r);
    Then(s3, EndFlush, r, [], [EndFlush], r);
    ZeroedAlone(s1, p, q, s3, r);
    Then(s, StartFlush, s1, [ZeroNext, ZeroNext, EndFlush], [StartFlush, ZeroNext, ZeroNext, EndFlush], r);
  }

  lemma ZeroedAlone(s1: State, p: Picture, q: Picture, s3: State, r: State)
    requires InRing(s1) && s1.producer == Flushing(0) && Leads(s3, [EndFlush], r)
    requires p == s1.slots[0].(target := 0.0) && q == s1.slots[1].(target := 0.0)
    requires s3 == s1.(slots := [p, q], producer := Flushing(2))
    ensures Leads(s1, [ZeroNext, ZeroNext, EndFlush], r)
  {
    var s2 := s1.(slots := [p, s1.slots[1]], producer := Flushing(1));
    Then(s2, ZeroNext, s3, [EndFlush], [ZeroNext, EndFlush], r);
    Then(s1, ZeroNext, s2, [ZeroNext, EndFlush], [ZeroNext, ZeroNext, EndFlush], r);
  }

  // ---- Runs that fail ----

  /** The program starts: nothing is queued or shown. */
  function Start(keeps_sum: bool): State {
    State([Picture(0, 0.0, 0.0), Picture(0, 0.0, 0.0)], 0, 0, 0, 0.0, 0.0, 0.0, 0.0, 0.0, 0.0, false, Idle, Out,
      keeps_sum, [], [])
  }

  /** At time 1 the first packet has come, which is a flush packet. */
  function Opened(keeps_sum: bool): State {
    Start(keeps_sum).(frame_timer := 1.0, last_pts := NOPTS, now := 1.0)
  }

  lemma Opens(R: State -> bool, keeps_sum: bool)
    requires Closed(R) && R(Start(keeps_sum))
    ensures R(Opened(keeps_sum))
  {
    var s := Start(keeps_sum);
    var s1 := s.(now := 1.0);
    Step(R, s, Tick(1.0), s1);
    Step(R, s1, StartFlush, s1.(producer := Flushing(0)));
    Step(R, s1.(producer := Flushing(0)), ZeroNext, s1.(producer := Flushing(1)));
    Step(R, s1.(producer := Flushing(1)), ZeroNext, s1.(producer := Flushing(2)));
    Step(R, s1.(producer := Flushing(2)), EndFlush, Opened(keeps_sum));
  }

  function WithPicture(s: State, id: nat, pts: real): State
    requires s.windex < |s.slots|
  {
    var delay := NominalDelay(s, pts);
    s.(slots := s.slots[s.windex := Picture(id, pts, s.frame_timer + delay)], windex := Next(s.windex),
       size := s.size + 1, frame_timer := s.frame_timer + delay, last_pts := pts, last_delay := delay,
       queued := s.queued + [id])
  }

  /** A picture is in its slot, and windex has moved past it. */
  function Placed(s: State, id: nat, pts: real): State
    requires s.windex < |s.slots|
  {
    s.(slots := s.slots[s.windex := s.slots[s.windex].(id := id, pts := pts)], windex := Next(s.windex),
       producer := Bumped(s.windex, id, pts))
  }

  lemma Places(R: State -> bool, s: State, id: nat, pts: real)
    requires Closed(R) && R(s) && InRing(s) && s.producer == Idle && s.size < QUEUE_SIZE
    ensures R(Placed(s, id, pts))
  {
    var s1 := s.(producer := Waiting(id, pts));
    var s2 := s.(producer := Room(id, pts));
    var s3 := s.(slots := s.slots[s.windex := s.slots[s.windex].(id := id, pts := pts)], producer := Filled(id, pts));
    Step(R, s, Decode(id, pts), s1);
    Step(R, s1, FindRoom, s2);
    Step(R, s2, Fill, s3);
    Step(R, s3, MoveWrite, Placed(s, id, pts));
  }

  /** A picture is queued without interruption. */
  lemma QueuesPicture(R: State -> bool, s: State, id: nat, pts: real)
    requires Closed(R) && R(s) && InRing(s) && s.producer == Idle && s.size < QUEUE_SIZE
    ensures R(WithPicture(s, id, pts))
  {
    Places(R, s, id, pts);
    GetsTarget(R, s, Placed(s, id, pts), id, pts, NominalDelay(s, pts), WithPicture(s, id, pts));
  }

  lemma GetsTarget(R: State -> bool, s: State, placed: State, id: nat, pts: real, delay: real, r: State)
    requires Closed(R) && InRing(s) && s.producer == Idle && placed == Placed(s, id, pts) && R(placed)
    requires delay == NominalDelay(s, pts) && r == WithPicture(s, id, pts)
    ensures R(r)
  {
    var sum := s.frame_timer + delay;
    var s1 := placed.(last_pts := pts, last_delay := delay, producer := Timing(s.windex, id, s.frame_timer, sum));
    var s2 := s1.(frame_timer := sum, producer := Timed(s.windex, id, sum));
    Step(R, placed, TimerRead(AsIs), s1);
    Step(R, s1, TimerWrite, s2);
    Step(R, s2, Commit, r.(producer := Queued));
    Step(R, r.(producer := Queued), StepOver, r);
  }

  /** Two pictures are queued, and at time 6, with both due, the main thread sees the second. */
  function SeesTwo(keeps_sum: bool): State {
    State([Picture(0, 1.0, 1.0), Picture(1, 2.0, 2.0)], 2, 0, 0, 2.0, 2.0, 1.0, 6.0, 1.0, -5.0, false, Idle,
      Compares(0, Reading(1.0, false)), keeps_sum, [0, 1], [])
  }

  lemma TwoGetQueued(R: State -> bool, keeps_sum: bool)
    requires Closed(R) && R(Start(keeps_sum))
    ensures R(SeesTwo(keeps_sum))
  {
    var s := Opened(keeps_sum);
    Opens(R, keeps_sum);
    var s1 := WithPicture(s, 0, 1.0);
    QueuesPicture(R, s, 0, 1.0);
    var s2 := WithPicture(s1, 1, 2.0);
    QueuesPicture(R, s1, 1, 2.0);
    Finds(R, s2, 5.0);
    Step(R, Found(s2, 5.0), SeeNext, SeesTwo(keeps_sum));
  }

  /** A flush zeroes both clocks of a ring read from slot 0. */
  lemma FlushZeroes(R: State -> bool, s: State, p: Picture, q: Picture) returns (r: State)
    requires Closed(R) && R(s) && InRing(s) && s.producer == Idle && s.slots == [p, q]
    ensures R(r) && r == s.(slots := [p.(target := 0.0), q.(target := 0.0)], producer := Flushing(2))
  {
    var s1 := s.(producer := Flushing(0));
    var s2 := s.(slots := [p.(target := 0.0), q], producer := Flushing(1));
    r := s.(slots := [p.(target := 0.0), q.(target := 0.0)], producer := Flushing(2));
    Step(R, s, StartFlush, s1);
    Step(R, s1, ZeroNext, s2);
    Step(R, s2, ZeroNext, r);
  }

  /** The other clock is read, a flush zeroes both, and the next one is read. */
  lemma FlushComesBetween(R: State -> bool, keeps_sum: bool) returns (f: State)
    requires Closed(R) && R(SeesTwo(keeps_sum))
    ensures R(f) && f.consumer == Compared(0, Reading(1.0, false), Reading(0.0, true))
  {
    var s := SeesTwo(keeps_sum);
    var s1 := s.(consumer := HasHeld(0, Reading(1.0, false)));
    Step(R, s, ReadHeld, s1);
    var s2 := FlushZeroes(R, s1, Picture(0, 1.0, 1.0), Picture(1, 2.0, 2.0));
    f := s2.(consumer := Compared(0, Reading(1.0, false), Reading(0.0, true)));
    Step(R, s2, ReadNext, f);
  }

  /** The assertion fails although every unpausing lands, and although the flush zeroes both clocks at once. */
  lemma FlushBreaksAssertion(keeps_sum: bool) returns (es: seq<Event>)
    ensures Possible(Start(keeps_sum), es) && AllLand(Start(keeps_sum), es)
    ensures Reached(Start(keeps_sum), es).consumer == Compared(0, Reading(1.0, false), Reading(0.0, true))
  {
    var s0 := Start(keeps_sum);
    LandsAtClosed(s0);
    TwoGetQueued(s => LandsAt(s0, s), keeps_sum);
    var f := FlushComesBetween(s => LandsAt(s0, s), keeps_sum);
    assert LandsAt(s0, f);
    es :| Possible(s0, es) && AllLand(s0, es) && Reached(s0, es) == f;
  }

  /** The first picture has been shown, the user has paused, and the main thread is about to write back the frame
      timer it has read for unpausing. */
  function Unpausing(keeps_sum: bool): State {
    State([Picture(0, 1.0, 1.0), Picture(0, 0.0, 0.0)], 0, 1, 1, 1.0, 1.0, 0.0, 1.0, 1.0, 0.0, true, Idle,
      Toggling(1.0, 1.0), keeps_sum, [0], [0])
  }

  lemma OneGetsShown(R: State -> bool, keeps_sum: bool)
    requires Closed(R) && R(Start(keeps_sum))
    ensures R(Unpausing(keeps_sum))
  {
    Opens(R, keeps_sum);
    var s1 := WithPicture(Opened(keeps_sum), 0, 1.0);
    QueuesPicture(R, Opened(keeps_sum), 0, 1.0);
    Finds(R, s1, 0.0);
    ShowsLast(R, Found(s1, 0.0));
    PausesAndGoesOn(R, Left(Found(s1, 0.0)));
    assert Left(Found(s1, 0.0)).shown == [0] && s1.queued == [0];
    assert s1.slots == [Picture(0, 1.0, 1.0), Picture(0, 0.0, 0.0)];
  }

  /** Nothing follows the picture found, so it is shown without a comparison. */
  lemma ShowsLast(R: State -> bool, s: State)
    requires Closed(R) && R(s) && InRing(s) && s.consumer.Due? && s.size == 1 && !HoldsMutex(s.producer)
    ensures R(Left(s))
  {
    var s1 := s.(consumer := Shows(s.consumer.v));
    Step(R, s, SeeNoNext, s1);
    Leaves(R, s1);
    assert Left(s1) == Left(s);
  }

  /** The main thread has paused, and begun to go on. */
  function Resuming(s: State): State {
    s.(paused := true, consumer := Toggling(s.frame_timer, Resumed(s)))
  }

  lemma PausesAndGoesOn(R: State -> bool, s: State)
    requires Closed(R) && R(s) && InRing(s) && s.consumer == Out && !s.paused
    ensures R(Resuming(s))
  {
    Step(R, s, Pause, s.(paused := true));
    Step(R, s.(paused := true), ToggleRead, Resuming(s));
  }

  /** A picture has been queued meanwhile, and unpausing has set the frame timer back to 1.0 though its target is
      3.0. */
  function LostUpdate(keeps_sum: bool): State {
    State([Picture(0, 1.0, 1.0), Picture(1, 3.0, 3.0)], 1, 1, 0, 1.0, 3.0, 2.0, 1.0, 1.0, 0.0, false, Idle,
      Out, keeps_sum, [0, 1], [0])
  }

  lemma UpdateGetsLost(R: State -> bool, keeps_sum: bool)
    requires AlwaysKept(R) && R(Start(keeps_sum))
    ensures R(LostUpdate(keeps_sum))
  {
    OneGetsShown(R, keeps_sum);
    var s := WithPicture(Unpausing(keeps_sum), 1, 3.0);
    QueuesPicture(R, Unpausing(keeps_sum), 1, 3.0);
    assert After(s, ToggleWrite(false)) == LostUpdate(keeps_sum);
    assert Keeps(R, s, ToggleWrite(false));
  }

  /** s can be reached from s0 in any way. */
  ghost predicate RunsTo(s0: State, s: State) {
    exists es :: Possible(s0, es) && Reached(s0, es) == s
  }

  lemma RunsToClosed(s0: State)
    ensures RunsTo(s0, s0) && AlwaysKept(s => RunsTo(s0, s))
  {
    assert Possible(s0, []) && Reached(s0, []) == s0;
    var R := s => RunsTo(s0, s);
    forall s, e ensures Keeps(R, s, e) {
      if R(s) && InRing(s) && Enabled(s, e) {
        var es :| Possible(s0, es) && Reached(s0, es) == s;
        OneMoreEvent(s0, es, e);
      }
    }
  }

  /** Another picture is queued, which is due before the one pending, and the assertion fails without a flush after the
      first packet. */
  lemma LostUpdateBreaksAssertion(keeps_sum: bool) returns (es: seq<Event>)
    ensures Possible(Start(keeps_sum), es) && Fails(Reached(Start(keeps_sum), es))
    ensures !AllLand(Start(keeps_sum), es)
  {
    var s0, s := Start(keeps_sum), LostUpdate(keeps_sum);
    var R := s => RunsTo(s0, s);
    RunsToClosed(s0);
    UpdateGetsLost(R, keeps_sum);
    QueuesPicture(R, s, 2, 4.0);
    ReadsBoth(R, WithPicture(s, 2, 4.0), 5.0);
    var f := BothRead(WithPicture(s, 2, 4.0), 5.0);
    assert RunsTo(s0, f);
    es :| Possible(s0, es) && Reached(s0, es) == f;
    if AllLand(s0, es) {
      AssertionHoldsIff(s0, es);
      assert false;
    }
  }
}
