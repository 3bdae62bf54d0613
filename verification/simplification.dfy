/**
 * The Ramer-Douglas-Peucker simplification of a drawn polyline
 * (src/utils/lineSmoothing.ts:13-40).
 *
 * The algorithm is stated over an arbitrary distance function `dist`:
 * its control flow needs nothing of the distance but a comparison, and the
 * module Geometry supplies the one the source uses.
 */
module Simplification {
  import opened Geometry

  /** dist(p, a, b): how far p lies from the line through a and b. */
  type Distance = (Point, Point, Point) -> real

  /** The distance of points[i] from the chord joining the first and last point. */
  function ChordDistance(points: seq<Point>, dist: Distance, i: nat): real
    requires i < |points|
  {
    dist(points[i], points[0], Last(points))
  }

  /**
   * The pair (maxDistance, maxIndex) held by the scan of the source after it
   * has examined the interior indices 1 .. k-1: a candidate replaces the
   * current maximum only when it is strictly greater.
   */
  function Scan(points: seq<Point>, dist: Distance, k: nat): (res: (real, nat))
    requires 1 <= k < |points|
    ensures 0.0 <= res.0 && res.1 < k
    ensures res.1 == 0 <==> res.0 == 0.0
    decreases k
  {
    if k == 1 then (0.0, 0)
    else
      var prev := Scan(points, dist, k - 1);
      var d := ChordDistance(points, dist, k - 1);
      if d > prev.0 then (d, k - 1) else prev
  }

  /** The result of the whole scan over the interior of points. */
  function Farthest(points: seq<Point>, dist: Distance): (real, nat)
    requires 2 <= |points|
  {
    Scan(points, dist, |points| - 1)
  }

  /** The two simplified halves joined at the split point, which ends left and starts right. */
  function Join(left: seq<Point>, right: seq<Point>): (r: seq<Point>)
    requires 1 <= |left|
    ensures |r| == |left| - 1 + |right|
  {
    left[..|left| - 1] + right
  }

  /**
   * The simplified polyline. At most two points come back unchanged;
   * otherwise, if the farthest interior point is farther than the
   * tolerance, both halves around it are simplified and joined at it,
   * and else only the two ends remain.
   */
  function Simplify(points: seq<Point>, tolerance: real, dist: Distance): (r: seq<Point>)
    requires 0.0 <= tolerance
    ensures |points| <= 2 ==> r == points
    ensures 2 <= |points| ==> 2 <= |r| <= |points|
    decreases |points|
  {
    if |points| <= 2 then points
    else
      var farthest := Farthest(points, dist);
      if farthest.0 > tolerance then
        Join(Simplify(points[..farthest.1 + 1], tolerance, dist), Simplify(points[farthest.1..], tolerance, dist))
      else
        [points[0], Last(points)]
  }

  /** The scan loop of simplifyPath: it finds the farthest interior point from the chord. */
  method FindFarthest(points: seq<Point>, dist: Distance) returns (maxDistance: real, maxIndex: nat)
    requires 2 < |points|
    ensures (maxDistance, maxIndex) == Farthest(points, dist)
  {
    maxDistance := 0.0;
    maxIndex := 0;
    var end := |points| - 1;
    for i := 1 to end
      invariant (maxDistance, maxIndex) == Scan(points, dist, i)
    {
      var distance := dist(points[i], points[0], points[end]);
      if distance > maxDistance {
        maxDistance := distance;
        maxIndex := i;
      }
    }
  }

  /** The source's simplifyPath: the scan, then recursion on both halves. */
  method SimplifyPath(points: seq<Point>, tolerance: real, dist: Distance) returns (r: seq<Point>)
    requires 0.0 <= tolerance
    ensures r == Simplify(points, tolerance, dist)
    decreases |points|
  {
    if |points| <= 2 {
      return points;
    }
    var maxDistance, maxIndex := FindFarthest(points, dist);
    if maxDistance > tolerance {
      SplitIsInterior(points, tolerance, dist);
      var left := SimplifyPath(points[..maxIndex + 1], tolerance, dist);
      var right := SimplifyPath(points[maxIndex..], tolerance, dist);
      r := left[..|left| - 1] + right;
      SimplifySplitsAt(points, tolerance, dist, maxIndex, left, right);
    } else {
      r := [points[0], points[|points| - 1]];
      SimplifyCollapses(points, tolerance, dist);
      assert r == Simplify(points, tolerance, dist);
    }
  }

  /**
   * The scan finds the FIRST interior point of greatest distance, and
   * reports distance 0 and index 0 when no interior distance is positive.
   */
  lemma {:induction false} ScanFindsFirstMaximum(points: seq<Point>, dist: Distance, k: nat)
    requires 1 <= k < |points|
    ensures forall i :: 1 <= i < k ==> ChordDistance(points, dist, i) <= Scan(points, dist, k).0
    ensures Scan(points, dist, k).1 != 0 ==>
              ChordDistance(points, dist, Scan(points, dist, k).1) == Scan(points, dist, k).0
    ensures forall i :: 1 <= i < Scan(points, dist, k).1 ==> ChordDistance(points, dist, i) < Scan(points, dist, k).0
    decreases k
  {
    if k > 1 {
      ScanFindsFirstMaximum(points, dist, k - 1);
    }
  }

  /** When the tolerance is exceeded, the split index is strictly interior. */
  lemma SplitIsInterior(points: seq<Point>, tolerance: real, dist: Distance)
    requires 0.0 <= tolerance && 2 < |points|
    requires Farthest(points, dist).0 > tolerance
    ensures 1 <= Farthest(points, dist).1 <= |points| - 2
  {
  }

  /** One step of Simplify when the tolerance is exceeded. */
  lemma SimplifySplits(points: seq<Point>, tolerance: real, dist: Distance)
    requires 0.0 <= tolerance && 2 < |points|
    requires Farthest(points, dist).0 > tolerance
    ensures var m := Farthest(points, dist).1;
            Simplify(points, tolerance, dist) ==
              Join(Simplify(points[..m + 1], tolerance, dist), Simplify(points[m..], tolerance, dist))
  {
  }

  /** SimplifySplits, for halves already simplified at the split index m. */
  lemma SimplifySplitsAt(points: seq<Point>, tolerance: real, dist: Distance, m: nat, left: seq<Point>, right: seq<Point>)
    requires 0.0 <= tolerance && 2 < |points|
    requires Farthest(points, dist).0 > tolerance && m == Farthest(points, dist).1
    requires left == Simplify(points[..m + 1], tolerance, dist) && right == Simplify(points[m..], tolerance, dist)
    ensures Simplify(points, tolerance, dist) == Join(left, right) == left[..|left| - 1] + right
  {
    SimplifySplits(points, tolerance, dist);
  }

  /** One step of Simplify when the tolerance is not exceeded. */
  lemma SimplifyCollapses(points: seq<Point>, tolerance: real, dist: Distance)
    requires 0.0 <= tolerance && 2 < |points|
    requires Farthest(points, dist).0 <= tolerance
    ensures Simplify(points, tolerance, dist) == [points[0], Last(points)]
  {
  }

  /** A join starts where left starts and ends where right ends. */
  lemma JoinKeepsEnds(left: seq<Point>, right: seq<Point>)
    requires 2 <= |left| && 1 <= |right|
    ensures Join(left, right)[0] == left[0]
    ensures Last(Join(left, right)) == Last(right)
  {
  }

  /** The simplified polyline starts and ends where the input does. */
  lemma {:induction false} SimplifyKeepsEnds(points: seq<Point>, tolerance: real, dist: Distance)
    requires 0.0 <= tolerance && 2 <= |points|
    ensures Simplify(points, tolerance, dist)[0] == points[0]
    ensures Last(Simplify(points, tolerance, dist)) == Last(points)
    decreases |points|, 1
  {
    if 2 < |points| {
      if Farthest(points, dist).0 > tolerance {
        SplitKeepsEnds(points, tolerance, dist);
      } else {
        SimplifyCollapses(points, tolerance, dist);
      }
    }
  }

  /** The split step of SimplifyKeepsEnds: both halves keep their ends, and so does their join. */
  lemma {:induction false} SplitKeepsEnds(points: seq<Point>, tolerance: real, dist: Distance)
    requires 0.0 <= tolerance && 2 < |points| && Farthest(points, dist).0 > tolerance
    ensures Simplify(points, tolerance, dist)[0] == points[0]
    ensures Last(Simplify(points, tolerance, dist)) == Last(points)
    decreases |points|, 0
  {
    var m := Farthest(points, dist).1;
    SplitIsInterior(points, tolerance, dist);
    var lp := points[..m + 1];
    var rp := points[m..];
    SimplifyKeepsEnds(lp, tolerance, dist);
    SimplifyKeepsEnds(rp, tolerance, dist);
    assert lp[0] == points[0] && Last(rp) == Last(points);
    SimplifySplits(points, tolerance, dist);
    JoinKeepsEnds(Simplify(lp, tolerance, dist), Simplify(rp, tolerance, dist));
  }

  /**
   * The polyline collapses to its two ends exactly when every interior point
   * lies within the tolerance of the chord.
   */
  lemma CollapseIffWithin(points: seq<Point>, tolerance: real, dist: Distance)
    requires 0.0 <= tolerance && 2 < |points|
    ensures |Simplify(points, tolerance, dist)| == 2 <==>
              forall i :: 0 < i < |points| - 1 ==> ChordDistance(points, dist, i) <= tolerance
    ensures |Simplify(points, tolerance, dist)| == 2 ==>
              Simplify(points, tolerance, dist) == [points[0], Last(points)]
  {
    ScanFindsFirstMaximum(points, dist, |points| - 1);
    if Farthest(points, dist).0 > tolerance {
      var m := Farthest(points, dist).1;
      SplitIsInterior(points, tolerance, dist);
      SimplifySplits(points, tolerance, dist);
      assert 3 <= |Simplify(points, tolerance, dist)|;
      assert ChordDistance(points, dist, m) > tolerance;
    } else {
      SimplifyCollapses(points, tolerance, dist);
    }
  }

  /**
   * When the tolerance is exceeded, the simplified left half ends and the
   * simplified right half starts at the split point, so dropping the last
   * point of the left half keeps exactly one copy of it.
   */
  lemma SplitJoinsOnce(points: seq<Point>, tolerance: real, dist: Distance)
    requires 0.0 <= tolerance && 2 < |points|
    requires Farthest(points, dist).0 > tolerance
    ensures var m := Farthest(points, dist).1;
            var left := Simplify(points[..m + 1], tolerance, dist);
            var right := Simplify(points[m..], tolerance, dist);
            Last(left) == points[m] == right[0]
  {
    var m := Farthest(points, dist).1;
    SplitIsInterior(points, tolerance, dist);
    SimplifyKeepsEnds(points[..m + 1], tolerance, dist);
    SimplifyKeepsEnds(points[m..], tolerance, dist);
  }

  /** With a negative tolerance and every interior point on the chord, the
   *  right half the source would recurse on is the whole input again. */
  lemma NoProgressBelowZero(points: seq<Point>, tolerance: real, dist: Distance)
    requires tolerance < 0.0 && 2 < |points|
    requires forall i :: 0 < i < |points| - 1 ==> ChordDistance(points, dist, i) == 0.0
    ensures Farthest(points, dist).0 > tolerance
    ensures points[Farthest(points, dist).1..] == points
  {
    ScanFindsFirstMaximum(points, dist, |points| - 1);
  }

  /** idx picks, in increasing order, the points of points that make up r. */
  ghost predicate Selection(points: seq<Point>, idx: seq<nat>, r: seq<Point>)
  {
    && |idx| == |r|
    && (forall j :: 0 <= j < |idx| ==> idx[j] < |points| && r[j] == points[idx[j]])
    && (forall j, k :: 0 <= j < k < |idx| ==> idx[j] < idx[k])
  }

  /** Every point strictly between lo and hi lies within the tolerance of the chord from lo to hi. */
  ghost predicate SegmentWithin(points: seq<Point>, lo: nat, hi: nat, tolerance: real, dist: Distance)
  {
    forall i :: lo < i < hi < |points| ==> dist(points[i], points[lo], points[hi]) <= tolerance
  }

  /** Between consecutive kept points, every dropped point is within the tolerance. */
  ghost predicate Faithful(points: seq<Point>, idx: seq<nat>, tolerance: real, dist: Distance)
  {
    forall j :: 0 <= j < |idx| - 1 ==> SegmentWithin(points, idx[j], idx[j + 1], tolerance, dist)
  }

  /** The indices of ri, moved up by m. */
  function Shift(ri: seq<nat>, m: nat): (r: seq<nat>)
    ensures |r| == |ri| && forall j :: 0 <= j < |ri| ==> r[j] == ri[j] + m
  {
    seq(|ri|, j requires 0 <= j < |ri| => ri[j] + m)
  }

  /** Selections of the two halves around m join into a selection of the whole. */
  lemma JoinSelection(points: seq<Point>, m: nat, il: seq<nat>, ir: seq<nat>, left: seq<Point>, right: seq<Point>)
    requires m < |points|
    requires Selection(points[..m + 1], il, left) && 2 <= |il| && Last(il) == m
    requires Selection(points[m..], ir, right) && 1 <= |ir| && ir[0] == 0
    ensures Selection(points, il[..|il| - 1] + Shift(ir, m), Join(left, right))
  {
    var idx := il[..|il| - 1] + Shift(ir, m);
    var r := Join(left, right);
    var nl := |il| - 1;
    forall j | 0 <= j < |idx|
      ensures idx[j] < |points| && r[j] == points[idx[j]]
    {
      if j < nl {
        assert idx[j] == il[j] && r[j] == left[j];
      } else {
        assert idx[j] == ir[j - nl] + m && r[j] == right[j - nl];
      }
    }
    forall j, k | 0 <= j < k < |idx|
      ensures idx[j] < idx[k]
    {
      if k < nl {
      } else if j < nl {
        assert idx[j] == il[j] && il[j] < il[nl];
        assert idx[k] == ir[k - nl] + m;
        if k - nl > 0 {
          assert ir[0] < ir[k - nl];
        }
      } else {
        assert ir[j - nl] < ir[k - nl];
      }
    }
  }

  /** Faithful selections of the two halves around m join into a faithful selection of the whole. */
  lemma JoinFaithful(points: seq<Point>, m: nat, il: seq<nat>, ir: seq<nat>, tolerance: real, dist: Distance)
    requires m < |points|
    requires 2 <= |il| && Last(il) == m && 1 <= |ir| && ir[0] == 0
    requires forall j :: 0 <= j < |il| ==> il[j] <= m
    requires Faithful(points[..m + 1], il, tolerance, dist)
    requires Faithful(points[m..], ir, tolerance, dist)
    ensures Faithful(points, il[..|il| - 1] + Shift(ir, m), tolerance, dist)
  {
    var idx := il[..|il| - 1] + Shift(ir, m);
    var lp := points[..m + 1];
    var rp := points[m..];
    var nl := |il| - 1;
    forall j | 0 <= j < |idx| - 1
      ensures SegmentWithin(points, idx[j], idx[j + 1], tolerance, dist)
    {
      if j < nl {
        assert idx[j] == il[j];
        assert idx[j + 1] == il[j + 1] by {
          if j + 1 == nl {
            assert idx[j + 1] == ir[0] + m;
          }
        }
        assert SegmentWithin(lp, il[j], il[j + 1], tolerance, dist);
        forall i | idx[j] < i < idx[j + 1] < |points|
          ensures dist(points[i], points[idx[j]], points[idx[j + 1]]) <= tolerance
        {
          assert lp[i] == points[i] && lp[il[j]] == points[idx[j]] && lp[il[j + 1]] == points[idx[j + 1]];
        }
      } else {
        var t := j - nl;
        assert idx[j] == ir[t] + m && idx[j + 1] == ir[t + 1] + m;
        assert SegmentWithin(rp, ir[t], ir[t + 1], tolerance, dist);
        forall i | idx[j] < i < idx[j + 1] < |points|
          ensures dist(points[i], points[idx[j]], points[idx[j + 1]]) <= tolerance
        {
          assert rp[i - m] == points[i] && rp[ir[t]] == points[idx[j]] && rp[ir[t + 1]] == points[idx[j + 1]];
        }
      }
    }
  }

  /** When nothing exceeds the tolerance, every interior point is within it of the chord. */
  lemma CollapsedIsFaithful(points: seq<Point>, tolerance: real, dist: Distance)
    requires 2 < |points| && Farthest(points, dist).0 <= tolerance
    ensures SegmentWithin(points, 0, |points| - 1, tolerance, dist)
  {
    ScanFindsFirstMaximum(points, dist, |points| - 1);
    forall i | 0 < i < |points| - 1
      ensures dist(points[i], points[0], points[|points| - 1]) <= tolerance
    {
      assert ChordDistance(points, dist, i) <= Farthest(points, dist).0;
    }
  }

  /** The selection of the ends is faithful when nothing exceeds the tolerance. */
  lemma CollapsedSelection(points: seq<Point>, tolerance: real, dist: Distance)
    requires 0.0 <= tolerance && 2 < |points| && Farthest(points, dist).0 <= tolerance
    ensures Selection(points, [0, |points| - 1], Simplify(points, tolerance, dist))
    ensures Faithful(points, [0, |points| - 1], tolerance, dist)
  {
    SimplifyCollapses(points, tolerance, dist);
    CollapsedIsFaithful(points, tolerance, dist);
  }

  /** Faithful selections for the two halves of a split give one for the whole. */
  lemma SplitSelection(points: seq<Point>, tolerance: real, dist: Distance, il: seq<nat>, ir: seq<nat>)
    returns (idx: seq<nat>)
    requires 0.0 <= tolerance && 2 < |points| && 1 <= Farthest(points, dist).1 <= |points| - 2
    requires Farthest(points, dist).0 > tolerance
    requires var m := Farthest(points, dist).1;
             && Selection(points[..m + 1], il, Simplify(points[..m + 1], tolerance, dist))
             && 2 <= |il| && il[0] == 0 && Last(il) == m
             && Faithful(points[..m + 1], il, tolerance, dist)
    requires var m := Farthest(points, dist).1;
             && Selection(points[m..], ir, Simplify(points[m..], tolerance, dist))
             && 2 <= |ir| && ir[0] == 0 && Last(ir) == |points| - 1 - m
             && Faithful(points[m..], ir, tolerance, dist)
    ensures Selection(points, idx, Simplify(points, tolerance, dist))
    ensures idx[0] == 0 && Last(idx) == |points| - 1
    ensures Faithful(points, idx, tolerance, dist)
  {
    var m := Farthest(points, dist).1;
    var left := Simplify(points[..m + 1], tolerance, dist);
    var right := Simplify(points[m..], tolerance, dist);
    SimplifySplits(points, tolerance, dist);
    JoinSelection(points, m, il, ir, left, right);
    assert forall j :: 0 <= j < |il| ==> il[j] <= m by {
      forall j | 0 <= j < |il| ensures il[j] <= m {
        assert il[j] < |points[..m + 1]|;
      }
    }
    JoinFaithful(points, m, il, ir, tolerance, dist);
    idx := il[..|il| - 1] + Shift(ir, m);
    assert idx[0] == il[0];
    assert Last(idx) == Last(ir) + m;
  }

  /**
   * The simplified polyline is an ordered subsequence of the input that
   * keeps both ends, and every dropped point lies within the tolerance of
   * the chord joining the two kept points around it.
   */
  lemma {:induction false} SimplifyIsFaithfulSubsequence(points: seq<Point>, tolerance: real, dist: Distance)
    returns (idx: seq<nat>)
    requires 0.0 <= tolerance && 2 <= |points|
    ensures 2 <= |idx|
    ensures Selection(points, idx, Simplify(points, tolerance, dist))
    ensures idx[0] == 0 && Last(idx) == |points| - 1
    ensures Faithful(points, idx, tolerance, dist)
    decreases |points|, 1
  {
    var n := |points|;
    if n == 2 {
      idx := [0, 1];
    } else if Farthest(points, dist).0 <= tolerance {
      idx := [0, n - 1];
      CollapsedSelection(points, tolerance, dist);
    } else {
      idx := SplitIsFaithfulSubsequence(points, tolerance, dist);
    }
  }

  /** The split step of SimplifyIsFaithfulSubsequence: selections of both halves, joined. */
  lemma {:induction false} SplitIsFaithfulSubsequence(points: seq<Point>, tolerance: real, dist: Distance)
    returns (idx: seq<nat>)
    requires 0.0 <= tolerance && 2 < |points| && Farthest(points, dist).0 > tolerance
    ensures 2 <= |idx|
    ensures Selection(points, idx, Simplify(points, tolerance, dist))
    ensures idx[0] == 0 && Last(idx) == |points| - 1
    ensures Faithful(points, idx, tolerance, dist)
    decreases |points|, 0
  {
    var m := Farthest(points, dist).1;
    SplitIsInterior(points, tolerance, dist);
    var il := SimplifyIsFaithfulSubsequence(points[..m + 1], tolerance, dist);
    var ir := SimplifyIsFaithfulSubsequence(points[m..], tolerance, dist);
    idx := SplitSelection(points, tolerance, dist, il, ir);
  }

  /** f preserves and reflects the order of non-negative reals and fixes 0. */
  ghost predicate OrderPreserving(f: real -> real)
  {
    && f(0.0) == 0.0
    && forall u, v :: 0.0 <= u && 0.0 <= v ==> (u < v <==> f(u) < f(v))
  }

  /** d2 is d1 composed with f, and d1 is never negative. */
  ghost predicate Rescaled(d1: Distance, d2: Distance, f: real -> real)
  {
    forall p, a, b :: 0.0 <= d1(p, a, b) && d2(p, a, b) == f(d1(p, a, b))
  }

  /** Rescaling the distance by an order-preserving map changes the maximum by that map, and not its index. */
  lemma {:induction false} ScanRescaled(points: seq<Point>, d1: Distance, d2: Distance, f: real -> real, k: nat)
    requires OrderPreserving(f) && Rescaled(d1, d2, f) && 1 <= k < |points|
    ensures Scan(points, d2, k) == (f(Scan(points, d1, k).0), Scan(points, d1, k).1)
    decreases k
  {
    if k > 1 {
      ScanRescaled(points, d1, d2, f, k - 1);
      assert ChordDistance(points, d2, k - 1) == f(ChordDistance(points, d1, k - 1));
    }
  }

  /** The split decision and the split index agree under an order-preserving rescaling. */
  lemma FarthestRescaled(points: seq<Point>, t1: real, d1: Distance, t2: real, d2: Distance, f: real -> real)
    requires 0.0 <= t1 && t2 == f(t1) && 2 < |points|
    requires OrderPreserving(f) && Rescaled(d1, d2, f)
    ensures Farthest(points, d1).1 == Farthest(points, d2).1
    ensures Farthest(points, d1).0 > t1 <==> Farthest(points, d2).0 > t2
  {
    ScanRescaled(points, d1, d2, f, |points| - 1);
  }

  /**
   * Rescaling the distance and the tolerance by the same order-preserving
   * map does not change which points are kept.
   */
  lemma {:induction false} SimplifyRescaled(points: seq<Point>, t1: real, d1: Distance, t2: real, d2: Distance, f: real -> real)
    requires 0.0 <= t1 && 0.0 <= t2 && t2 == f(t1)
    requires OrderPreserving(f) && Rescaled(d1, d2, f)
    ensures Simplify(points, t1, d1) == Simplify(points, t2, d2)
    decreases |points|
  {
    if 2 < |points| {
      FarthestRescaled(points, t1, d1, t2, d2, f);
      var m := Farthest(points, d1).1;
      if Farthest(points, d1).0 > t1 {
        SplitIsInterior(points, t1, d1);
        SimplifyRescaled(points[..m + 1], t1, d1, t2, d2, f);
        SimplifyRescaled(points[m..], t1, d1, t2, d2, f);
        SimplifySplits(points, t1, d1);
        SimplifySplits(points, t2, d2);
      } else {
        SimplifyCollapses(points, t1, d1);
        SimplifyCollapses(points, t2, d2);
      }
    }
  }

  /**
   * Simplifying with the perpendicular distance and a tolerance is the same
   * as simplifying with its square and the squared tolerance: the model of
   * the source needs no square root.
   */
  lemma SimplifyBySquares(points: seq<Point>, tolerance: real, d: Distance)
    requires 0.0 <= tolerance && IsPerpendicularDistance(d)
    ensures Simplify(points, tolerance, d) == Simplify(points, Square(tolerance), SquaredPerpendicularDistance)
  {
    forall u, v | 0.0 <= u && 0.0 <= v
      ensures u < v <==> Square(u) < Square(v)
    {
      SquareOrder(u, v);
    }
    assert OrderPreserving(Square);
    assert Rescaled(d, SquaredPerpendicularDistance, Square);
    SimplifyRescaled(points, tolerance, d, Square(tolerance), SquaredPerpendicularDistance, Square);
  }
}
