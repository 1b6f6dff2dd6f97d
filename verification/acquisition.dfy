/**
  The `while True` loop of `generate_frames` (app.py) written as a loop.
 */
module Acquisition {
  import opened Wrappers
  import opened Pipeline

  /**
    Starts from the globals' initial values and the frame of the initial
    `camera.read()`, then processes reads until one fails. The result is the
    one the functional fold `Run` describes.
   */
  method Acquire<F>(detect: (F, F) -> seq<nat>, first: Option<F>, input: seq<Read<F>>) returns (t: Trace<F>)
    ensures t == Run(detect, Initial(first), input)
  {
    var s := Initial(first);
    var fired: seq<Firing> := [];
    var i := 0;
    while i < |input|
      invariant 0 <= i <= |input|
      invariant Run(detect, Initial(first), input) == Prepend(fired, Run(detect, s, input[i..]))
    {
      assert input[i..][0] == input[i];
      match input[i]
      case Failed =>
        assert Run(detect, s, input[i..]) == Trace(s, [], ReadFailed);
        return Trace(s, fired, ReadFailed);
      case Captured(frame, clock) =>
        var r := Step(detect, s, frame, clock);
        if r.Crashed? {
          assert Run(detect, s, input[i..]) == Trace(s, [], DetectorFault);
          return Trace(s, fired, DetectorFault);
        }
        RunStep(detect, s, input[i..]);
        assert input[i..][1..] == input[i + 1..];
        var now := ToSeq(r.fired);
        var rest := Run(detect, r.next, input[i + 1..]);
        assert fired + (now + rest.fired) == fired + now + rest.fired;
        fired := fired + now;
        s := r.next;
        i := i + 1;
    }
    assert Run(detect, s, input[i..]) == Trace(s, [], OutOfInput);
    t := Trace(s, fired, OutOfInput);
  }
}
