# Security camera motion core

A Dafny model of the sequential core of a Flask/OpenCV security-camera
application (`app.py`). The camera, OpenCV, the clocks and the notifier
clients are abstracted away. What is left is deterministic:

- **Upload check** (`allowed_file`): a file name is accepted when it has a dot
  and the text after its last dot, lower-cased, is `png`, `jpg` or `jpeg`
  (module `Upload`).
- **Motion decision** (the last lines of `detect_motion`): the areas of the
  changed regions between two frames are summed, and motion is reported when
  the total strictly exceeds `motion_threshold` = 5000 (module `Motion`).
  Each region is only its area, a `nat`.
- **Acquisition loop** (`generate_frames`): one pass of the `while True` body is
  a pure transition `Pipeline.Step` over a state record. The record holds
  `frame_count`, the previous frame, `motion_detected`, `last_motion_time`, the
  event log `motion_events` and the notifier threads started so far. The loop is
  `Pipeline.Run`, a fold over a finite sequence of camera reads that stops at
  the first failed read. `Acquisition.Acquire` is the same loop written as a
  `while` loop. The properties of the loop are in `LoopProperties`:
  - the throttle (only even `frame_count` frames are evaluated);
  - the 5-second debounce with a strict `>`;
  - the newest-first event log cut back to 20 entries (module `EventLog`);
  - one e-mail and one SMS alert per recorded event.
- **Snapshot names** `motion_YYYYMMDD_HHMMSS.jpg`: built from an explicit clock
  reading with zero-padded fields (modules `DateFormat` and `Snapshot`), with a
  parser that reads a name back into the clock reading.

Frames are a type parameter `F`. The image processing of `detect_motion` is a
parameter `detect: (F, F) -> seq<nat>` that yields the region areas between the
previous and the current frame. Each camera read is `Failed`, or `Captured` with
its frame and a `Clock`. A `Clock` holds what the clocks say during that
iteration:

- `time.time()` as whole seconds;
- the `datetime.now()` reading used for the event timestamp;
- the `datetime.now()` reading used for the snapshot file name.

The source reads the clock twice, so the two readings may differ. An event is
held as its two readings. Its `timestamp`, `image` and `path` strings are
derived from them by `Pipeline.Timestamp`, `Pipeline.Image` and `Pipeline.Path`.
An alert records the event it was started for. `Pipeline.Argument` gives the
string the thread is started with: the file path for e-mail, the public URL for
SMS.

The initial `camera.read()` ignores its success flag, so the previous frame may
be missing. In that case the first evaluated iteration hands `None` to
`detect_motion`, which raises and ends the loop. The model keeps this as it is
written: `Step` returns `Crashed` and the run stops with `DetectorFault`.

The globals `frame_count`, `last_motion_time` and `motion_events` live for the
whole process, so a later call of `generate_frames` continues from their current
values. `Run` therefore starts from any state. `Initial` is the state at process
start.

## Model

| member | source | states |
|---|---|---|
| Upload.AllowedFile | app.py:64-66 | definition: a dot is present and the lower-cased text after the last dot is in `ALLOWED_EXTENSIONS` |
| Upload.Lower | app.py:66 | definition: `.lower()` on the extension, folding each ASCII capital to its small letter and leaving every other character alone |
| Upload.AfterLastDot | app.py:66 | the extension is the longest dot-free suffix of the name; when the name has a dot, a dot sits immediately before it; without a dot it is the whole name |
| Upload.AllowedFileIff | app.py:64-66 | a name is allowed exactly when some dot in it is followed by a dot-free suffix that lower-cases to png, jpg or jpeg; a name without a dot is always refused |
| Upload.LowerIffCaseVariant | app.py:66 | lower-casing gives a lower-case word exactly for the spellings of that word in any mix of upper and lower case |
| Upload.ExtensionCaseIff | app.py:64-66 | an extension lower-cases into the allowed set exactly when it spells png, jpg or jpeg in any mix of case |
| Upload.AllowedFileCaseIff | app.py:64-66 | a name is allowed exactly when it has a dot and the text after its last dot spells png, jpg or jpeg in any mix of case, so `photo.JPG` is allowed |
| Upload.LastDotIsUnique | app.py:66 | any dot with no dot after it is where `rsplit('.', 1)` splits, so the extension is the text after it |
| Motion.TotalArea | app.py:87 | definition: the sum of the region areas |
| Motion.MotionDetected | app.py:89 | definition: the total area is strictly greater than 5000 |
| Motion.TotalAreaAppend | app.py:87 | the total area of two lists of regions is the sum of their totals |
| Motion.RegionWithinTotal | app.py:87 | every region's area is at most the total area |
| Motion.NoRegionsNoMotion | app.py:87-89 | an empty region list is never motion |
| Motion.LargeRegionIsMotion | app.py:87-89 | one region above the threshold of 5000 is enough for motion |
| Motion.MoreRegionsKeepMotion | app.py:87-89 | finding more regions never withdraws a motion decision |
| Motion.MotionIgnoresOrder | app.py:87-89 | the total area and the decision depend only on the multiset of region areas, not their order |
| EventLog.Newest | app.py:209-211 | the kept part of a newest-first history is a prefix of it, of length min(length, 20) |
| EventLog.Push | app.py:203-211 | after an insertion the new event is at index 0, the rest is a prefix of the old log, the length is min(old + 1, 20), and nothing is dropped while the log had fewer than 20 entries |
| EventLog.PushKeepsNewest | app.py:203-211 | inserting into the log of a history gives the log of the history extended by the new event: truncation keeps the 20 newest, in order |
| EventLog.NewestOfPrefixed | app.py:209-211 | truncating an older log and then adding newer events in front keeps the same entries as truncating once |
| DateFormat.Padded | app.py:198 | a zero-padded field has exactly the field width, only digits, and reads back as the number |
| DateFormat.PaddedValue | app.py:198 | padding inverts reading: a digit string is the padding of its own value at its own width |
| DateFormat.Stamp | app.py:185 | the `%Y-%m-%d %H:%M:%S` timestamp of a reading is 19 characters long |
| DateFormat.CompactStamp | app.py:198 | the `%Y%m%d_%H%M%S` stamp of a reading is 15 characters long |
| DateFormat.StampFields | app.py:185 | the event timestamp has `-`, ` `, `:` at positions 4, 7, 10, 13, 16, and each field slice reads back as the year, month, day, hour, minute and second of the reading |
| DateFormat.CompactStampFields | app.py:198 | the compact stamp has `_` at position 8, and each field slice reads back as the year, month, day, hour, minute and second of the reading |
| Snapshot.SnapshotName | app.py:198 | every snapshot name is 26 characters long |
| Snapshot.SnapshotPath | app.py:199 | definition: the upload folder joined with the file name by `/` |
| Snapshot.SnapshotUrl | app.py:216 | definition: the placeholder public folder URL followed by the file name |
| Snapshot.SnapshotNameShape | app.py:198 | a snapshot name is `motion_`, then the compact stamp with `_` at position 15, then `.jpg` |
| Snapshot.SnapshotNameAllowed | app.py:198 | every snapshot name passes `allowed_file` |
| Snapshot.SnapshotNameRoundTrip | app.py:198 | parsing a snapshot name gives back the clock reading it was made from |
| Snapshot.ParsedNameIsCanonical | app.py:198 | every name the parser accepts is exactly the snapshot name of what it parsed |
| Snapshot.SnapshotNameInjective | app.py:198 | two readings give the same snapshot name exactly when they are equal |
| Pipeline.Initial | app.py:36-39 | definition: the globals at process start, `frame_count = 0`, `motion_detected = False`, `last_motion_time = None`, an empty `motion_events` (line 61) and no alerts, with the frame of the unchecked initial read (line 165), possibly none, as the previous frame |
| LoopProperties.FirstIteration | app.py:165-178 | the start-up state is within the 20-entry bound and its first frame is evaluated; because the initial read's success flag is ignored, the first iteration crashes exactly when that read gave no frame, and otherwise records an event exactly when the regions against the initial frame exceed the threshold |
| Pipeline.Evaluated | app.py:173 | definition: the frame is processed when the frame count is even |
| Pipeline.CooledDown | app.py:193 | definition: no event was recorded yet, or more than 5 seconds have passed since the last one |
| Pipeline.Timestamp | app.py:204 | definition: the event's `timestamp` entry is its line-185 reading in `%Y-%m-%d %H:%M:%S` |
| Pipeline.Image | app.py:205 | definition: the event's `image` entry is the snapshot name of its file-name reading |
| Pipeline.Path | app.py:206 | definition: the event's `path` entry is the snapshot path of its image |
| Pipeline.AlertsFor | app.py:214-216 | definition: an event starts an e-mail alert and then an SMS alert |
| Pipeline.Step | app.py:172-222 | an iteration crashes exactly when it evaluates with no previous frame; otherwise the frame count grows by one, the previous frame is replaced only on evaluated iterations, the 20-entry bound is kept, and an event is recorded only on an evaluated frame with motion after the cooldown |
| Pipeline.AlertsOf | app.py:214-216 | the recorded events start twice as many alerts as there are events |
| Pipeline.Argument | app.py:214-216 | definition: the e-mail thread is started with the snapshot path, the SMS thread with the snapshot's public URL |
| Pipeline.Run | app.py:167-225 | the loop consumes exactly one read per completed iteration; it ends out of input exactly when every read was consumed, on a failed read when the next read failed, and on a detector fault when the next read was a frame evaluated with no previous frame; the 20-entry bound holds throughout |
| Pipeline.RunHalts | app.py:168-170 | a failed read, the end of the input or a crashing iteration ends the loop with the state unchanged and no event recorded |
| Acquisition.Acquire | app.py:164-225 | the imperative loop returns the same final state, events and stop reason as the fold `Run` from the initial state |
| LoopProperties.RecordsIff | app.py:173-195 | an iteration records an event if and only if the frame is evaluated, a previous frame exists, the total area exceeds the threshold and the cooldown has passed |
| LoopProperties.QuietFrameChangesNothing | app.py:173-191 | a skipped frame, or an evaluated frame without motion, leaves the log, the debounce time, the motion flag and the alerts unchanged |
| LoopProperties.CooldownSuppresses | app.py:193 | motion within 5 seconds of the last recorded event, 5 included, records nothing and starts no alert |
| LoopProperties.FirstMotionRecorded | app.py:193-195 | the first motion ever seen on an evaluated frame is always recorded, at the current time |
| LoopProperties.RecordedEventEffects | app.py:185-216 | a recorded event is made of the iteration's two clock readings, so its timestamp is the line-185 reading formatted; it sets the debounce time to now and the motion flag, is inserted at index 0 of the log, starts exactly one e-mail and one SMS alert for itself, and its image name parses back to the file-name reading and passes `allowed_file` |
| LoopProperties.EventStrings | app.py:198-216 | an event's image parses back to its file-name reading; its path is the capture folder joined with the image; the e-mail alert carries that path and the SMS alert the public URL of the same image |
| LoopProperties.StepEffects | app.py:172-222 | one iteration's effect on the log, the alerts, the motion flag and the debounce time, stated against the events it recorded |
| LoopProperties.RunKeepsNewestEvents | app.py:203-211 | after any run from a state with at most 20 events the log is the 20 newest of all recorded events, newest first, followed by what remains of the starting log |
| LoopProperties.RunAlertsMatchEvents | app.py:194-216 | over any run the alerts started are exactly one e-mail and one SMS alert per recorded event, in order; the motion flag is set once an event is recorded |
| LoopProperties.RunEventsSpaced | app.py:193-195 | any two events of a run are more than 5 seconds apart, the first is more than 5 seconds after the starting debounce time, and the run ends with the time of its last event as debounce time |
| LoopProperties.SkippedStep | app.py:172-222 | a frame with odd frame count only advances the frame count |
| LoopProperties.MotionStep | app.py:173-195 | an evaluated frame with motion replaces the previous frame; when the cooldown has passed it is recorded at the current time and the log length becomes min(old + 1, 20), otherwise the log and the debounce time are unchanged |
| LoopProperties.RunAppend | app.py:167-170 | a loop over two input blocks is the loop over the first block continued over the second from where it ended |
| LoopProperties.MotionThenSkip | app.py:173-195 | two reads from an evaluated frame with motion: the first is recorded exactly when the cooldown has passed, the second is skipped by the throttle |
| LoopProperties.DebounceExample | app.py:173-195 | with motion on every frame at times t, t+1 and t+6 on the evaluated iterations, exactly the events at t and t+6 are recorded |

## Left out

- OpenCV image processing (grey-scale conversion, difference, threshold, dilation, contours, contour drawing, the timestamp overlay, JPEG encoding). It is replaced by the `detect` parameter, which yields the region areas.
- Motion.TotalArea: contour areas are floats in the source; here each area is a `nat`, so fractional areas are not modelled.
- Camera and disk I/O. Opening the camera, its failure path that publishes a "Camera not available" placeholder frame, `camera.read()` and `cv2.imwrite` are left out. Reads are an input sequence. The result of `imwrite` is ignored by the source, so no write failure is modelled.
- The notifier bodies `send_email_alert` and `send_sms_alert` are network clients (SMTP, Twilio). The model records only that their threads are started, and with which argument.
- Threads, the lock, the `output_frame` publisher and the `generate_video_feed` loop are concurrency and streaming.
- Flask routes, templates and the settings form are request plumbing.
- Pipeline.Step: `time.time()` is a float in the source; here it is whole seconds, so the debounce compares integer seconds.
- `time.sleep(0.01)` at the end of each iteration has no effect on the state and is left out.
- Pipeline.Run: the source loop is unbounded; the model runs over a finite read sequence and reports `OutOfInput` when it is used up.
- Snapshot.SnapshotPath: `os.path.join` is modelled with the POSIX separator `/`; the Windows separator is not modelled.
- DateFormat.Valid: only the field ranges of `datetime` are kept. Day-of-month against the month's length is not checked, so the parser accepts names such as 31 February.
- DateFormat.Valid: years are restricted to 1000-9999. Below year 1000 the platform's `strftime` may write `%Y` with fewer than four digits, so those readings are outside the model and the snapshot-name parser refuses them.
- Upload.AllowedFile: `str.lower` is modelled on ASCII letters only. No other character lower-cases to a letter of `png`, `jpg` or `jpeg`, so the decision is the same.
