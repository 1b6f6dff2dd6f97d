/**
  What the acquisition loop of app.py guarantees, stated over the model of
  one iteration (`Pipeline.Step`) and of the whole loop (`Pipeline.Run`).
 */
module LoopProperties {
  import opened Wrappers
  import opened Pipeline
  import DateFormat
  import Motion
  import EventLog
  import Snapshot
  import Upload

  /**
    An iteration records an event exactly when the frame is evaluated, there
    is a previous frame to compare with, the regions exceed the threshold and
    the cooldown has passed.
   */
  lemma RecordsIff<F>(detect: (F, F) -> seq<nat>, s: State<F>, frame: F, clock: Clock)
    ensures var r := Step(detect, s, frame, clock);
      r.Stepped? && r.fired.Some? <==>
        && Evaluated(s)
        && s.prevFrame.Some?
        && Motion.MotionDetected(detect(s.prevFrame.value, frame))
        && CooledDown(s.lastMotionTime, clock.now)
  {
  }

  /**
    A frame that is skipped by the throttle, or evaluated without motion,
    leaves the event log, the debounce time and the alerts alone.
   */
  lemma QuietFrameChangesNothing<F>(detect: (F, F) -> seq<nat>, s: State<F>, frame: F, clock: Clock)
    requires !Evaluated(s) || (s.prevFrame.Some? && !Motion.MotionDetected(detect(s.prevFrame.value, frame)))
    ensures var r := Step(detect, s, frame, clock);
      && r.Stepped? && r.fired.None?
      && r.next.events == s.events
      && r.next.lastMotionTime == s.lastMotionTime
      && r.next.motionDetected == s.motionDetected
      && r.next.alerts == s.alerts
  {
  }

  /** Motion within `Cooldown` seconds of the last recorded event is suppressed. */
  lemma CooldownSuppresses<F>(detect: (F, F) -> seq<nat>, s: State<F>, frame: F, clock: Clock)
    requires s.lastMotionTime.Some? && clock.now - s.lastMotionTime.value <= Cooldown
    ensures var r := Step(detect, s, frame, clock);
      r.Stepped? ==>
        && r.fired.None?
        && r.next.events == s.events
        && r.next.lastMotionTime == s.lastMotionTime
        && r.next.alerts == s.alerts
  {
  }

  /** The first motion ever seen on an evaluated frame is always recorded. */
  lemma FirstMotionRecorded<F>(detect: (F, F) -> seq<nat>, s: State<F>, frame: F, clock: Clock)
    requires Evaluated(s) && s.prevFrame.Some? && s.lastMotionTime.None?
    requires Motion.MotionDetected(detect(s.prevFrame.value, frame))
    ensures var r := Step(detect, s, frame, clock);
      r.Stepped? && r.fired.Some? && r.fired.value.time == clock.now
  {
  }

  /**
    The first iteration after start-up: its frame is evaluated, and because
    the initial read's success flag is ignored it crashes exactly when that
    read produced no frame. Otherwise it compares against the initial frame.
   */
  lemma FirstIteration<F>(detect: (F, F) -> seq<nat>, first: Option<F>, frame: F, clock: Clock)
    ensures Bounded(Initial(first)) && Evaluated(Initial(first))
    ensures var r := Step(detect, Initial(first), frame, clock);
      && (r.Crashed? <==> first.None?)
      && (r.Stepped? ==>
            && r.next.prevFrame == Some(frame)
            && (r.fired.Some? <==> Motion.MotionDetected(detect(first.value, frame))))
  {
  }

  /**
    A recorded event: the debounce time becomes `now`, the event heads the
    log with the older events behind it, exactly one e-mail and one SMS alert
    naming its snapshot are started, and the snapshot name encodes the clock
    reading and passes the upload check.
   */
  lemma RecordedEventEffects<F>(detect: (F, F) -> seq<nat>, s: State<F>, frame: F, clock: Clock)
    requires var r := Step(detect, s, frame, clock); r.Stepped? && r.fired.Some?
    ensures var r := Step(detect, s, frame, clock);
      var e := r.fired.value.event;
      && e == Event(clock.stamp, clock.fileStamp)
      && Timestamp(e) == DateFormat.Stamp(clock.stamp)
      && r.fired.value.time == clock.now
      && r.next.lastMotionTime == Some(clock.now)
      && r.next.motionDetected
      && r.next.events == EventLog.Push(e, s.events)
      && r.next.events[0] == e
      && r.next.events[1..] <= s.events
      && r.next.alerts == s.alerts + [EmailAlert(e), SmsAlert(e)]
      && Snapshot.ParseSnapshotName(Image(e)) == Some(clock.fileStamp)
      && Upload.AllowedFile(Image(e))
  {
    var r := Step(detect, s, frame, clock);
    assert r.fired.value.event == Event(clock.stamp, clock.fileStamp);
    Snapshot.SnapshotNameAllowed(clock.fileStamp);
    Snapshot.SnapshotNameRoundTrip(clock.fileStamp);
  }

  /**
    The strings of an event: its image is the snapshot name of the `fileStamp` reading and is stored
    under the capture folder, the e-mail alert carries that path and the SMS
    alert the public URL of the same file.
   */
  lemma EventStrings(e: Event)
    ensures Snapshot.ParseSnapshotName(Image(e)) == Some(e.fileStamp)
    ensures Path(e) == Snapshot.UploadFolder + "/" + Image(e)
    ensures Argument(EmailAlert(e)) == Path(e)
    ensures Argument(SmsAlert(e)) == Snapshot.PublicFolderUrl + Image(e)
  {
    Snapshot.SnapshotNameRoundTrip(e.fileStamp);
  }

  /** The events recorded by a run, newest first. */
  function NewestFirst(fired: seq<Firing>): seq<Event> {
    Reverse(EventsOf(fired))
  }

  lemma NewestFirstAppend(a: seq<Firing>, b: seq<Firing>)
    ensures NewestFirst(a + b) == NewestFirst(b) + NewestFirst(a)
  {
    var l := NewestFirst(a + b);
    var r := NewestFirst(b) + NewestFirst(a);
    assert |l| == |r|;
    forall k | 0 <= k < |l|
      ensures l[k] == r[k]
    {
      if k < |b| {
        assert l[k] == b[|b| - 1 - k].event;
      } else {
        assert l[k] == a[|a| + |b| - 1 - k].event;
      }
    }
  }

  lemma AlertsOfAppend(a: seq<Firing>, b: seq<Firing>)
    ensures AlertsOf(a + b) == AlertsOf(a) + AlertsOf(b)
    decreases |a|
  {
    if |a| == 0 {
      assert a + b == b;
    } else {
      assert (a + b)[1..] == a[1..] + b;
      AlertsOfAppend(a[1..], b);
    }
  }

  /** What one successful iteration does to the log, the alerts and the debounce time. */
  lemma StepEffects<F>(detect: (F, F) -> seq<nat>, s: State<F>, frame: F, clock: Clock)
    requires Step(detect, s, frame, clock).Stepped?
    ensures var r := Step(detect, s, frame, clock);
      && (Bounded(s) ==> Bounded(r.next))
      && (Bounded(s) ==> r.next.events == EventLog.Newest(NewestFirst(ToSeq(r.fired)) + s.events))
      && r.next.alerts == s.alerts + AlertsOf(ToSeq(r.fired))
      && r.next.motionDetected == (s.motionDetected || r.fired.Some?)
      && (r.fired.None? ==> r.next.lastMotionTime == s.lastMotionTime)
      && (r.fired.Some? ==>
            && r.next.lastMotionTime == Some(r.fired.value.time)
            && CooledDown(s.lastMotionTime, r.fired.value.time))
  {
    var r := Step(detect, s, frame, clock);
    match r.fired
    case None =>
      assert NewestFirst([]) == [];
    case Some(f) =>
      assert ToSeq(r.fired) == [f];
      assert NewestFirst([f]) == [f.event];
      assert AlertsOf([f]) == AlertsFor(f.event) + AlertsOf([]);
      EventLog.PushKeepsNewest(f.event, s.events);
  }

  /** The log relation of one iteration and of the rest of the run compose. */
  lemma LogPrepend<F>(log: seq<Event>, first: seq<Firing>, mid: seq<Event>, rest: Trace<F>)
    requires mid == EventLog.Newest(NewestFirst(first) + log)
    requires rest.final.events == EventLog.Newest(NewestFirst(rest.fired) + mid)
    ensures Prepend(first, rest).final.events == EventLog.Newest(NewestFirst(Prepend(first, rest).fired) + log)
  {
    var now := NewestFirst(first);
    var later := NewestFirst(rest.fired);
    NewestFirstAppend(first, rest.fired);
    EventLog.NewestOfPrefixed(later, now + log);
    assert later + (now + log) == later + now + log;
  }

  /** The alert relation of one iteration and of the rest of the run compose. */
  lemma AlertsPrepend<F>(s: State<F>, first: seq<Firing>, mid: State<F>, rest: Trace<F>)
    requires mid.alerts == s.alerts + AlertsOf(first)
    requires mid.motionDetected == (s.motionDetected || |first| > 0)
    requires rest.final.alerts == mid.alerts + AlertsOf(rest.fired)
    requires rest.final.motionDetected == (mid.motionDetected || |rest.fired| > 0)
    ensures Prepend(first, rest).final.alerts == s.alerts + AlertsOf(Prepend(first, rest).fired)
    ensures Prepend(first, rest).final.motionDetected == (s.motionDetected || |Prepend(first, rest).fired| > 0)
  {
    AlertsOfAppend(first, rest.fired);
    assert s.alerts + AlertsOf(first) + AlertsOf(rest.fired) == s.alerts + (AlertsOf(first) + AlertsOf(rest.fired));
  }

  /** Any two firings more than `Cooldown` apart, the first more than `Cooldown` after `last`. */
  predicate Spaced(last: Option<int>, fired: seq<Firing>) {
    && (forall i, j :: 0 <= i < j < |fired| ==> fired[j].time - fired[i].time > Cooldown)
    && (last.Some? && |fired| > 0 ==> fired[0].time - last.value > Cooldown)
  }

  /** The debounce time after the firings: that of the last one, or `last` if there is none. */
  function EndTime(last: Option<int>, fired: seq<Firing>): Option<int> {
    if |fired| == 0 then last else Some(fired[|fired| - 1].time)
  }

  /** One more firing in front keeps the spacing when it respected the cooldown. */
  lemma SpacedPrepend(last: Option<int>, fo: Option<Firing>, mid: Option<int>, rest: seq<Firing>)
    requires fo.None? ==> mid == last
    requires fo.Some? ==> mid == Some(fo.value.time) && CooledDown(last, fo.value.time)
    requires Spaced(mid, rest)
    ensures Spaced(last, ToSeq(fo) + rest)
    ensures EndTime(last, ToSeq(fo) + rest) == EndTime(mid, rest)
  {
    match fo
    case None =>
      assert ToSeq(fo) + rest == rest;
    case Some(f) =>
      var all := [f] + rest;
      assert ToSeq(fo) + rest == all;
      forall i, j | 0 <= i < j < |all|
        ensures all[j].time - all[i].time > Cooldown
      {
        assert all[j] == rest[j - 1];
        if i == 0 {
          if j > 1 {
            assert rest[j - 1].time - rest[0].time > Cooldown;
          }
        } else {
          assert all[i] == rest[i - 1];
        }
      }
  }

  /**
    After any run the log holds the 20 newest of all events ever recorded,
    newest first, followed by what was left of the initial log: nothing but
    the oldest tail is ever dropped.
   */
  lemma {:induction false} RunKeepsNewestEvents<F>(detect: (F, F) -> seq<nat>, s: State<F>, input: seq<Read<F>>)
    requires Bounded(s)
    ensures var t := Run(detect, s, input);
      t.final.events == EventLog.Newest(NewestFirst(t.fired) + s.events)
    decreases |input|
  {
    if |input| == 0 || input[0].Failed? || Step(detect, s, input[0].frame, input[0].clock).Crashed? {
      RunHalts(detect, s, input);
      assert NewestFirst([]) == [];
      assert [] + s.events == s.events;
    } else {
      var r := Step(detect, s, input[0].frame, input[0].clock);
      RunStep(detect, s, input);
      StepEffects(detect, s, input[0].frame, input[0].clock);
      RunKeepsNewestEvents(detect, r.next, input[1..]);
      LogPrepend(s.events, ToSeq(r.fired), r.next.events, Run(detect, r.next, input[1..]));
    }
  }

  /**
    Every recorded event starts exactly its e-mail and SMS alert, in order,
    and nothing else starts an alert; `motion_detected` is set once an event
    has been recorded.
   */
  lemma {:induction false} RunAlertsMatchEvents<F>(detect: (F, F) -> seq<nat>, s: State<F>, input: seq<Read<F>>)
    ensures var t := Run(detect, s, input);
      && t.final.alerts == s.alerts + AlertsOf(t.fired)
      && t.final.motionDetected == (s.motionDetected || |t.fired| > 0)
    decreases |input|
  {
    if |input| == 0 || input[0].Failed? || Step(detect, s, input[0].frame, input[0].clock).Crashed? {
      RunHalts(detect, s, input);
    } else {
      var r := Step(detect, s, input[0].frame, input[0].clock);
      RunStep(detect, s, input);
      StepEffects(detect, s, input[0].frame, input[0].clock);
      RunAlertsMatchEvents(detect, r.next, input[1..]);
      AlertsPrepend(s, ToSeq(r.fired), r.next, Run(detect, r.next, input[1..]));
    }
  }

  /**
    The debounce over a whole run: any two recorded events are more than
    `Cooldown` seconds apart, the first is more than `Cooldown` after the
    debounce time the run started with, and the run ends with the debounce
    time of its last event.
   */
  lemma {:induction false} RunEventsSpaced<F>(detect: (F, F) -> seq<nat>, s: State<F>, input: seq<Read<F>>)
    ensures var t := Run(detect, s, input);
      && (forall i, j :: 0 <= i < j < |t.fired| ==> t.fired[j].time - t.fired[i].time > Cooldown)
      && (s.lastMotionTime.Some? && |t.fired| > 0 ==> t.fired[0].time - s.lastMotionTime.value > Cooldown)
      && t.final.lastMotionTime == EndTime(s.lastMotionTime, t.fired)
    decreases |input|
  {
    if |input| == 0 || input[0].Failed? || Step(detect, s, input[0].frame, input[0].clock).Crashed? {
      RunHalts(detect, s, input);
    } else {
      var r := Step(detect, s, input[0].frame, input[0].clock);
      RunStep(detect, s, input);
      StepEffects(detect, s, input[0].frame, input[0].clock);
      RunEventsSpaced(detect, r.next, input[1..]);
      var rest := Run(detect, r.next, input[1..]);
      assert Spaced(r.next.lastMotionTime, rest.fired);
      SpacedPrepend(s.lastMotionTime, r.fired, r.next.lastMotionTime, rest.fired);
    }
  }

  /** A frame skipped by the throttle only advances the frame counter. */
  lemma SkippedStep<F>(detect: (F, F) -> seq<nat>, s: State<F>, frame: F, clock: Clock)
    requires !Evaluated(s)
    ensures var r := Step(detect, s, frame, clock);
      r.Stepped? && r.fired.None? && r.next == s.(frameCount := s.frameCount + 1)
  {
  }

  /** An evaluated frame showing motion is recorded exactly when the cooldown has passed. */
  lemma MotionStep<F>(detect: (F, F) -> seq<nat>, s: State<F>, frame: F, clock: Clock)
    requires Evaluated(s) && s.prevFrame.Some?
    requires Motion.MotionDetected(detect(s.prevFrame.value, frame))
    ensures var r := Step(detect, s, frame, clock);
      && r.Stepped?
      && r.next.frameCount == s.frameCount + 1
      && r.next.prevFrame == Some(frame)
      && (CooledDown(s.lastMotionTime, clock.now) ==>
            && r.fired.Some? && r.fired.value.time == clock.now
            && r.next.lastMotionTime == Some(clock.now)
            && |r.next.events| == EventLog.Min(|s.events| + 1, EventLog.Cap))
      && (!CooledDown(s.lastMotionTime, clock.now) ==>
            && r.fired.None?
            && r.next.lastMotionTime == s.lastMotionTime
            && r.next.events == s.events)
  {
  }

  /**
    The loop can be cut at any point: running over `a + b` is running over
    `a` and, if that consumed all of `a`, continuing over `b` from where it
    ended.
   */
  lemma {:induction false} RunAppend<F>(detect: (F, F) -> seq<nat>, s: State<F>, a: seq<Read<F>>, b: seq<Read<F>>)
    ensures var ta := Run(detect, s, a);
      ta.stop == OutOfInput ==> Run(detect, s, a + b) == Prepend(ta.fired, Run(detect, ta.final, b))
    decreases |a|
  {
    if |a| == 0 {
      assert a + b == b;
      RunHalts(detect, s, a);
    } else {
      assert (a + b)[0] == a[0] && (a + b)[1..] == a[1..] + b;
      if a[0].Captured? && Step(detect, s, a[0].frame, a[0].clock).Stepped? {
        var r := Step(detect, s, a[0].frame, a[0].clock);
        RunStep(detect, s, a);
        RunStep(detect, s, a + b);
        RunAppend(detect, r.next, a[1..], b);
        PrependTwice(detect, ToSeq(r.fired), Run(detect, r.next, a[1..]), Run(detect, r.next, a[1..] + b), b);
      } else {
        RunHalts(detect, s, a);
      }
    }
  }

  lemma PrependTwice<F>(detect: (F, F) -> seq<nat>, first: seq<Firing>, ta: Trace<F>, tab: Trace<F>, b: seq<Read<F>>)
    requires ta.stop == OutOfInput ==> tab == Prepend(ta.fired, Run(detect, ta.final, b))
    ensures Prepend(first, ta).stop == OutOfInput ==>
      Prepend(first, tab) == Prepend(Prepend(first, ta).fired, Run(detect, Prepend(first, ta).final, b))
  {
    if ta.stop == OutOfInput {
      assert first + (ta.fired + Run(detect, ta.final, b).fired) == first + ta.fired + Run(detect, ta.final, b).fired;
    }
  }

  /**
    Two reads starting at an evaluated frame that shows motion: the first is
    recorded exactly when the cooldown has passed, the second is skipped by
    the throttle.
   */
  lemma MotionThenSkip<F>(detect: (F, F) -> seq<nat>, s: State<F>, input: seq<Read<F>>)
    requires |input| == 2 && input[0].Captured? && input[1].Captured?
    requires Evaluated(s) && s.prevFrame.Some?
    requires Motion.MotionDetected(detect(s.prevFrame.value, input[0].frame))
    ensures var t := Run(detect, s, input);
      var now := input[0].clock.now;
      && t.stop == OutOfInput
      && Evaluated(t.final) && t.final.prevFrame == Some(input[0].frame)
      && (CooledDown(s.lastMotionTime, now) ==>
            && |t.fired| == 1 && t.fired[0].time == now
            && t.final.lastMotionTime == Some(now)
            && |t.final.events| == EventLog.Min(|s.events| + 1, EventLog.Cap))
      && (!CooledDown(s.lastMotionTime, now) ==>
            && t.fired == []
            && t.final.lastMotionTime == s.lastMotionTime
            && t.final.events == s.events)
  {
    var a, b := input[0], input[1];
    MotionStep(detect, s, a.frame, a.clock);
    var r := Step(detect, s, a.frame, a.clock);
    RunStep(detect, s, input);
    var rest := input[1..];
    assert rest[0] == b;
    SkippedStep(detect, r.next, b.frame, b.clock);
    var q := Step(detect, r.next, b.frame, b.clock);
    RunStep(detect, r.next, rest);
    RunHalts(detect, q.next, rest[1..]);
  }

  /**
    Motion seen on every evaluated frame at times t0, t0+1 and t0+6: the
    first and the last are recorded and the one a second after the first is
    suppressed. The odd-numbered frames in between are skipped by the
    throttle whatever their clocks say.
   */
  lemma DebounceExample<F>(detect: (F, F) -> seq<nat>, first: F, input: seq<Read<F>>, t0: int)
    requires |input| == 6
    requires forall k :: 0 <= k < 6 ==> input[k].Captured?
    requires forall x, y :: Motion.MotionDetected(detect(x, y))
    requires input[0].clock.now == t0 && input[2].clock.now == t0 + 1 && input[4].clock.now == t0 + 6
    ensures var t := Run(detect, Initial(Some(first)), input);
      && t.stop == OutOfInput
      && |t.fired| == 2 && t.fired[0].time == t0 && t.fired[1].time == t0 + 6
      && |t.final.events| == 2
  {
    var p1, p2, p3 := input[..2], input[2..4], input[4..];
    assert p1[0] == input[0] && p2[0] == input[2] && p3[0] == input[4];
    assert p1[1] == input[1] && p2[1] == input[3] && p3[1] == input[5];
    assert input == p1 + (p2 + p3);
    var s0 := Initial(Some(first));
    MotionThenSkip(detect, s0, p1);
    var t1 := Run(detect, s0, p1);
    MotionThenSkip(detect, t1.final, p2);
    var t2 := Run(detect, t1.final, p2);
    MotionThenSkip(detect, t2.final, p3);
    var t3 := Run(detect, t2.final, p3);
    RunAppend(detect, t1.final, p2, p3);
    RunAppend(detect, s0, p1, p2 + p3);
    assert Run(detect, s0, input).fired == t1.fired + (t2.fired + t3.fired);
  }
}
