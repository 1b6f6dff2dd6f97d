/**
  One iteration of the acquisition loop `generate_frames` (app.py) as a pure
  transition, and the loop itself as a fold over a finite sequence of camera
  reads that stops at the first failed read.

  Frames are a type parameter `F`; the image processing of `detect_motion` is
  the parameter `detect`, which yields the areas of the changed regions
  between the previous and the current frame. `time.time()` is the integer
  `now` of a clock reading and `datetime.now()` its two broken-down readings.
 */
module Pipeline {
  import opened Wrappers
  import opened DateFormat
  import Motion
  import EventLog
  import Snapshot

  /** Seconds that must pass, strictly, between two recorded events. */
  const Cooldown: int := 5

  /**
    An entry of `motion_events`. Its three strings (`timestamp`, `image`,
    `path`) are all formatted from two `datetime.now()` readings, so the
    entry is held as those readings and the strings are derived from them
    by `Timestamp`, `Image` and `Path`.
   */
  datatype Event = Event(stamp: Moment, fileStamp: Moment)

  /** The `timestamp` entry: `%Y-%m-%d %H:%M:%S`. */
  function Timestamp(e: Event): string {
    Stamp(e.stamp)
  }

  /** The `image` entry: the snapshot file name. */
  function Image(e: Event): string {
    Snapshot.SnapshotName(e.fileStamp)
  }

  /** The `path` entry: where the snapshot is written. */
  function Path(e: Event): string {
    Snapshot.SnapshotPath(Image(e))
  }

  /** A notifier thread started for an event. */
  datatype Alert = EmailAlert(event: Event) | SmsAlert(event: Event)

  /** The argument the thread is started with: the file path for e-mail, the public URL for SMS. */
  function Argument(a: Alert): string {
    match a
    case EmailAlert(e) => Path(e)
    case SmsAlert(e) => Snapshot.SnapshotUrl(Image(e))
  }

  /**
    What the clocks say during one iteration: `time.time()` (as whole seconds),
    the `datetime.now()` read for the frame timestamp and the one read for the
    snapshot file name.
   */
  datatype Clock = Clock(now: int, stamp: Moment, fileStamp: Moment)

  /** One `camera.read()`: a failure, or a frame with the clock readings of its iteration. */
  datatype Read<F> = Failed | Captured(frame: F, clock: Clock)

  /**
    The globals the loop maintains. `alerts` lists, oldest first, every
    notifier thread started so far.
   */
  datatype State<F> = State(
    frameCount: nat,
    prevFrame: Option<F>,
    motionDetected: bool,
    lastMotionTime: Option<int>,
    events: seq<Event>,
    alerts: seq<Alert>)

  /** A recorded event together with the `time.time()` value that was stored for it. */
  datatype Firing = Firing(time: int, event: Event)

  /**
    The outcome of one iteration. `Crashed`: `detect_motion` was handed a
    missing previous frame and raised, which ends the loop.
   */
  datatype StepResult<F> = Stepped(next: State<F>, fired: Option<Firing>) | Crashed

  /** Why the loop ended: a failed read, the exception above, or the end of the model's finite input. */
  datatype Stop = ReadFailed | DetectorFault | OutOfInput

  /** The state the loop ends in, the events it recorded in order, and why it ended. */
  datatype Trace<F> = Trace(final: State<F>, fired: seq<Firing>, stop: Stop)

  /**
    The globals when the loop starts: `frame_count = 0`, no event yet, and as
    previous frame whatever the initial `camera.read()` returned (its success
    flag is ignored, so it may be `None`).
   */
  function Initial<F>(first: Option<F>): State<F> {
    State(0, first, false, None, [], [])
  }

  /** The log invariant: at most `Cap` events. */
  predicate Bounded<F>(s: State<F>) {
    |s.events| <= EventLog.Cap
  }

  /** Frames are evaluated only when the frame counter is even. */
  predicate Evaluated<F>(s: State<F>) {
    s.frameCount % 2 == 0
  }

  /** The debounce test: never recorded before, or more than `Cooldown` seconds since. */
  predicate CooledDown(last: Option<int>, now: int) {
    last.None? || now - last.value > Cooldown
  }

  /** The two notifier threads started for an event, e-mail first. */
  function AlertsFor(e: Event): seq<Alert> {
    [EmailAlert(e), SmsAlert(e)]
  }

  /** One pass of the `while True` body after a successful `camera.read()`. */
  function Step<F>(detect: (F, F) -> seq<nat>, s: State<F>, frame: F, clock: Clock): (r: StepResult<F>)
    ensures r.Crashed? <==> Evaluated(s) && s.prevFrame.None?
    ensures r.Stepped? ==> r.next.frameCount == s.frameCount + 1
    ensures r.Stepped? ==> r.next.prevFrame == if Evaluated(s) then Some(frame) else s.prevFrame
    ensures r.Stepped? && Bounded(s) ==> Bounded(r.next)
    ensures r.Stepped? && r.fired.Some? ==>
      && Evaluated(s)
      && Motion.MotionDetected(detect(s.prevFrame.value, frame))
      && CooledDown(s.lastMotionTime, clock.now)
  {
    if !Evaluated(s) then
      Stepped(s.(frameCount := s.frameCount + 1), None)
    else
      match s.prevFrame
      case None => Crashed
      case Some(prev) =>
        var moved := s.(frameCount := s.frameCount + 1, prevFrame := Some(frame));
        if Motion.MotionDetected(detect(prev, frame)) && CooledDown(s.lastMotionTime, clock.now) then
          var e := Event(clock.stamp, clock.fileStamp);
          var next := moved.(
            motionDetected := true,
            lastMotionTime := Some(clock.now),
            events := EventLog.Push(e, s.events),
            alerts := s.alerts + AlertsFor(e));
          Stepped(next, Some(Firing(clock.now, e)))
        else
          Stepped(moved, None)
  }

  /** The events of a list of firings, in the same order. */
  function EventsOf(fired: seq<Firing>): seq<Event> {
    seq(|fired|, i requires 0 <= i < |fired| => fired[i].event)
  }

  /** Newest first: the reverse of a chronological list. */
  function Reverse<T>(s: seq<T>): seq<T> {
    seq(|s|, i requires 0 <= i < |s| => s[|s| - 1 - i])
  }

  /** All notifier threads started for a chronological list of firings. */
  function AlertsOf(fired: seq<Firing>): (a: seq<Alert>)
    ensures |a| == 2 * |fired|
  {
    if |fired| == 0 then [] else AlertsFor(fired[0].event) + AlertsOf(fired[1..])
  }

  /** Puts the firings of earlier iterations in front of a trace's own. */
  function Prepend<F>(earlier: seq<Firing>, t: Trace<F>): Trace<F> {
    t.(fired := earlier + t.fired)
  }

  /**
    The loop from state `s` over `input`: each successful read is one `Step`,
    and the loop stops at the first failed read (`if not success: break`).
   */
  function Run<F>(detect: (F, F) -> seq<nat>, s: State<F>, input: seq<Read<F>>): (t: Trace<F>)
    ensures t.final.frameCount >= s.frameCount
    ensures var k := t.final.frameCount - s.frameCount;
      && k <= |input|
      && (forall i :: 0 <= i < k ==> input[i].Captured?)
      && (t.stop == OutOfInput <==> k == |input|)
      && (t.stop == ReadFailed ==> input[k].Failed?)
      && (t.stop == DetectorFault ==> input[k].Captured? && Evaluated(t.final) && t.final.prevFrame.None?)
    ensures Bounded(s) ==> Bounded(t.final)
    decreases |input|
  {
    if |input| == 0 then Trace(s, [], OutOfInput)
    else
      match input[0]
      case Failed => Trace(s, [], ReadFailed)
      case Captured(frame, clock) =>
        match Step(detect, s, frame, clock)
        case Crashed => Trace(s, [], DetectorFault)
        case Stepped(next, fired) =>
          var rest := Run(detect, next, input[1..]);
          Prepend(ToSeq(fired), rest)
  }

  /** A successful iteration contributes its firing, if any, in front of the rest of the loop's. */
  lemma RunStep<F>(detect: (F, F) -> seq<nat>, s: State<F>, input: seq<Read<F>>)
    requires |input| > 0 && input[0].Captured?
    requires Step(detect, s, input[0].frame, input[0].clock).Stepped?
    ensures var r := Step(detect, s, input[0].frame, input[0].clock);
      Run(detect, s, input) == Prepend(ToSeq(r.fired), Run(detect, r.next, input[1..]))
  {
  }

  /** A failed read, the end of the input or a crashing iteration ends the loop with nothing more recorded. */
  lemma RunHalts<F>(detect: (F, F) -> seq<nat>, s: State<F>, input: seq<Read<F>>)
    requires |input| == 0 || input[0].Failed? || Step(detect, s, input[0].frame, input[0].clock).Crashed?
    ensures Run(detect, s, input).final == s
    ensures Run(detect, s, input).fired == []
  {
  }
}
