/**
  The bounded motion-event log (`motion_events` in app.py): newest first,
  new events inserted at the head, cut back to the 20 newest after each
  insertion.
 */
module EventLog {

  /** How many events the log keeps. */
  const Cap: nat := 20

  function Min(a: int, b: int): int {
    if a <= b then a else b
  }

  /** The reference: the first `Cap` entries of a newest-first history. */
  function Newest<T>(history: seq<T>): (r: seq<T>)
    ensures |r| == Min(|history|, Cap)
    ensures r <= history
  {
    if |history| <= Cap then history else history[..Cap]
  }

  /**
    `motion_events.insert(0, e)` followed by `motion_events[:20]` when the
    list grew past 20 entries.
   */
  function Push<T>(e: T, log: seq<T>): (r: seq<T>)
    ensures |r| == Min(|log| + 1, Cap)
    ensures r[0] == e
    ensures r[1..] <= log
    ensures |log| < Cap ==> r[1..] == log
  {
    var grown := [e] + log;
    if |grown| > Cap then grown[..Cap] else grown
  }

  /** Inserting into the kept part of a history keeps the newest of the longer history. */
  lemma PushKeepsNewest<T>(e: T, history: seq<T>)
    ensures Push(e, Newest(history)) == Newest([e] + history)
  {
    var l := Newest(history);
    var r := Push(e, l);
    var n := Newest([e] + history);
    assert |r| == |n|;
    forall k | 0 <= k < |r|
      ensures r[k] == n[k]
    {
      if k > 0 {
        assert r[k] == r[1..][k - 1] == l[k - 1];
      }
    }
  }

  /** Truncating twice is truncating once, even when newer entries were put in front. */
  lemma NewestOfPrefixed<T>(front: seq<T>, history: seq<T>)
    ensures Newest(front + Newest(history)) == Newest(front + history)
  {
    var a := Newest(front + Newest(history));
    var b := Newest(front + history);
    assert |a| == |b|;
    forall k | 0 <= k < |a|
      ensures a[k] == b[k]
    {
      if k >= |front| {
        assert a[k] == Newest(history)[k - |front|];
      }
    }
  }
}
