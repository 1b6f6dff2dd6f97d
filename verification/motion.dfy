/**
  The decision rule of `detect_motion` (app.py): the changed regions found
  between two frames are summed and motion is reported when the total area
  strictly exceeds `motion_threshold`. The image processing that finds the
  regions is abstracted away; each region is only its area.
 */
module Motion {

  /** `motion_threshold`. */
  const Threshold: nat := 5000

  /** `sum(cv2.contourArea(c) for c in contours)`. */
  function TotalArea(areas: seq<nat>): nat {
    if |areas| == 0 then 0 else TotalArea(areas[..|areas| - 1]) + areas[|areas| - 1]
  }

  /** The boolean `detect_motion` returns first. */
  predicate MotionDetected(areas: seq<nat>) {
    TotalArea(areas) > Threshold
  }

  /** Area adds up over a split of the region list. */
  lemma {:induction false} TotalAreaAppend(a: seq<nat>, b: seq<nat>)
    ensures TotalArea(a + b) == TotalArea(a) + TotalArea(b)
    decreases |b|
  {
    if |b| > 0 {
      var b' := b[..|b| - 1];
      assert (a + b)[..|a + b| - 1] == a + b';
      TotalAreaAppend(a, b');
    } else {
      assert a + b == a;
    }
  }

  /** No region, no motion: an empty difference mask never triggers. */
  lemma NoRegionsNoMotion()
    ensures !MotionDetected([])
  {
  }

  /** Each region's area is part of the total. */
  lemma {:induction false} RegionWithinTotal(areas: seq<nat>, i: int)
    requires 0 <= i < |areas|
    ensures areas[i] <= TotalArea(areas)
    decreases |areas|
  {
    if i < |areas| - 1 {
      RegionWithinTotal(areas[..|areas| - 1], i);
    }
  }

  /** One region larger than the threshold is motion, whatever else changed. */
  lemma LargeRegionIsMotion(areas: seq<nat>, i: int)
    requires 0 <= i < |areas| && areas[i] > Threshold
    ensures MotionDetected(areas)
  {
    RegionWithinTotal(areas, i);
  }

  /** Finding further regions never withdraws a motion decision. */
  lemma MoreRegionsKeepMotion(a: seq<nat>, b: seq<nat>)
    ensures MotionDetected(a) ==> MotionDetected(a + b)
    ensures MotionDetected(b) ==> MotionDetected(a + b)
  {
    TotalAreaAppend(a, b);
  }

  /** The decision does not depend on the order the regions are listed in. */
  lemma {:induction false} MotionIgnoresOrder(a: seq<nat>, b: seq<nat>)
    requires multiset(a) == multiset(b)
    ensures TotalArea(a) == TotalArea(b)
    ensures MotionDetected(a) <==> MotionDetected(b)
    decreases |a|
  {
    if |a| > 0 {
      var x := a[|a| - 1];
      var a' := a[..|a| - 1];
      assert a == a' + [x];
      assert x in multiset(b);
      var j :| 0 <= j < |b| && b[j] == x;
      var b' := b[..j] + b[j + 1..];
      assert b == b[..j] + [x] + b[j + 1..];
      assert multiset(b) == multiset(b[..j]) + multiset{x} + multiset(b[j + 1..]);
      assert multiset(b') == multiset(b[..j]) + multiset(b[j + 1..]);
      assert multiset(a) == multiset(a') + multiset{x};
      assert multiset(a') == multiset(a) - multiset{x};
      assert multiset(b') == multiset(b) - multiset{x};
      MotionIgnoresOrder(a', b');
      TotalAreaAppend(b[..j] + [x], b[j + 1..]);
      TotalAreaAppend(b[..j], [x]);
      TotalAreaAppend(b[..j], b[j + 1..]);
      assert [x][..0] == [];
    } else {
      assert |b| == |multiset(b)| == 0;
    }
  }
}
