/**
 * Path data for a polyline: the straight form and the two smoothing
 * schemes, quadratic and cubic (src/utils/lineSmoothing.ts:65-157).
 *
 * The source emits an SVG `d` string; the model emits the list of commands
 * that string spells, one value per `M`, `L`, `Q` or `C` instruction.
 */
module Curves {
  import opened Geometry

  /** One path command; `p` is the point it ends at. */
  datatype Cmd =
    | M(p: Point)                         // move to
    | L(p: Point)                         // line to
    | Q(c: Point, p: Point)               // quadratic Bezier with control point c
    | C(c1: Point, c2: Point, p: Point)   // cubic Bezier with control points c1, c2

  /** The end points of the commands, in order. */
  function Targets(cmds: seq<Cmd>): (r: seq<Point>)
    ensures |r| == |cmds| && forall i :: 0 <= i < |cmds| ==> r[i] == cmds[i].p
  {
    seq(|cmds|, i requires 0 <= i < |cmds| => cmds[i].p)
  }

  /** A move to the first point followed by lines only. */
  ghost predicate IsStraight(cmds: seq<Cmd>)
  {
    |cmds| == 0 || (cmds[0].M? && forall i :: 1 <= i < |cmds| ==> cmds[i].L?)
  }

  /** The path through points drawn with straight segments (pointsToPathData). */
  function PointsToPathData(points: seq<Point>): (r: seq<Cmd>)
    ensures IsStraight(r) && Targets(r) == points
  {
    seq(|points|, i requires 0 <= i < |points| => if i == 0 then M(points[i]) else L(points[i]))
  }

  /** A straight path is determined by the points it visits. */
  lemma StraightPathUnique(cmds: seq<Cmd>)
    requires IsStraight(cmds)
    ensures PointsToPathData(Targets(cmds)) == cmds
  {
    var r := PointsToPathData(Targets(cmds));
    forall i | 0 <= i < |cmds|
      ensures r[i] == cmds[i]
    {
      if i == 0 {
        assert r[i] == M(cmds[0].p);
      } else {
        assert cmds[i].L?;
      }
    }
  }

  // ---------------------------------------------------------------- quadratic

  /**
   * The end point of the quadratic segment leaving next: next moved toward
   * the midpoint of next and nextNext by smoothness * 0.5 of the way.
   */
  function QuadEnd(next: Point, nextNext: Point, smoothness: real): Point
  {
    var midX := (next.x + nextNext.x) / 2.0;
    var midY := (next.y + nextNext.y) / 2.0;
    Point(next.x + (midX - next.x) * smoothness * 0.5, next.y + (midY - next.y) * smoothness * 0.5)
  }

  /** The command the quadratic loop appends for index i. */
  function QuadSegment(points: seq<Point>, smoothness: real, i: nat): Cmd
    requires i < |points| - 1
  {
    var next := points[i + 1];
    if i == |points| - 2 then L(next) else Q(next, QuadEnd(next, points[i + 2], smoothness))
  }

  /** The commands the quadratic loop has appended after k iterations. */
  function QuadSegments(points: seq<Point>, smoothness: real, k: nat): (r: seq<Cmd>)
    requires k < |points|
    ensures |r| == k && forall j :: 0 <= j < k ==> r[j] == QuadSegment(points, smoothness, j)
  {
    if k == 0 then [] else QuadSegments(points, smoothness, k - 1) + [QuadSegment(points, smoothness, k - 1)]
  }

  /** The path smoothPath describes. */
  function QuadraticPath(points: seq<Point>, smoothness: real): seq<Cmd>
  {
    if |points| <= 2 || smoothness == 0.0 then PointsToPathData(points)
    else [M(points[0])] + QuadSegments(points, smoothness, |points| - 1)
  }

  /** Up to two points, or zero smoothness, give the straight path through the points. */
  lemma QuadraticStraightWhenTrivial(points: seq<Point>, smoothness: real)
    ensures |points| <= 2 || smoothness == 0.0 ==>
              IsStraight(QuadraticPath(points, smoothness)) && Targets(QuadraticPath(points, smoothness)) == points
  {
  }

  /** The source's smoothPath: appends one command per segment. */
  method SmoothPath(points: seq<Point>, smoothness: real) returns (pathData: seq<Cmd>)
    ensures pathData == QuadraticPath(points, smoothness)
  {
    if |points| == 0 {
      return [];
    }
    if |points| == 1 {
      assert PointsToPathData(points) == [M(points[0])];
      return [M(points[0])];
    }
    if |points| == 2 {
      assert PointsToPathData(points) == [M(points[0]), L(points[1])];
      return [M(points[0]), L(points[1])];
    }
    if smoothness == 0.0 {
      return PointsToPathData(points);
    }
    pathData := [M(points[0])];
    for i := 0 to |points| - 1
      invariant |pathData| == i + 1 && pathData[0] == M(points[0])
      invariant forall j :: 0 <= j < i ==> pathData[j + 1] == QuadSegment(points, smoothness, j)
    {
      var next := points[i + 1];
      var cmd;
      if i == |points| - 2 {
        cmd := L(next);
      } else {
        var nextNext := points[i + 2];
        var midX := (next.x + nextNext.x) / 2.0;
        var midY := (next.y + nextNext.y) / 2.0;
        var controlX := next.x + (midX - next.x) * smoothness * 0.5;
        var controlY := next.y + (midY - next.y) * smoothness * 0.5;
        cmd := Q(next, Point(controlX, controlY));
      }
      assert cmd == QuadSegment(points, smoothness, i);
      pathData := pathData + [cmd];
    }
    assert pathData == [M(points[0])] + QuadSegments(points, smoothness, |points| - 1);
  }

  /**
   * For three or more points and non-zero smoothness: a move to the first
   * point, one quadratic segment per interior point, whose control point is
   * that interior point, and a final straight line to the last point.
   */
  lemma QuadraticShape(points: seq<Point>, smoothness: real)
    requires 3 <= |points| && smoothness != 0.0
    ensures |QuadraticPath(points, smoothness)| == |points|
    ensures QuadraticPath(points, smoothness)[0] == M(points[0])
    ensures forall j :: 1 <= j < |points| - 1 ==>
              QuadraticPath(points, smoothness)[j] == Q(points[j], QuadEnd(points[j], points[j + 1], smoothness))
    ensures Last(QuadraticPath(points, smoothness)) == L(Last(points))
  {
    var r := QuadraticPath(points, smoothness);
    forall j | 1 <= j < |points| - 1
      ensures r[j] == Q(points[j], QuadEnd(points[j], points[j + 1], smoothness))
    {
      assert r[j] == QuadSegment(points, smoothness, j - 1);
    }
    assert Last(r) == QuadSegment(points, smoothness, |points| - 2);
  }

  /** The end point of a quadratic segment lies on the chord from a to b, smoothness / 4 of the way. */
  lemma QuadEndOnChord(a: Point, b: Point, smoothness: real)
    ensures QuadEnd(a, b, smoothness) == Point(a.x + (b.x - a.x) * (smoothness / 4.0), a.y + (b.y - a.y) * (smoothness / 4.0))
  {
    var e := QuadEnd(a, b, smoothness);
    HalfwayScaled(a.x, b.x, smoothness);
    assert e.x == a.x + (b.x - a.x) * (smoothness / 4.0);
    HalfwayScaled(a.y, b.y, smoothness);
    assert e.y == a.y + (b.y - a.y) * (smoothness / 4.0);
  }

  /** Moving from u halfway to v and scaling by s * 0.5 is moving (v - u) * (s / 4). */
  lemma HalfwayScaled(u: real, v: real, s: real)
    ensures ((u + v) / 2.0 - u) * s * 0.5 == (v - u) * (s / 4.0)
  {
    var w := v - u;
    var p := w * s;
    assert (u + v) / 2.0 - u == w / 2.0;
    assert (w / 2.0) * s == p / 2.0;
    assert (w / 2.0) * s * 0.5 == p / 4.0;
    assert w * (s / 4.0) == p / 4.0;
  }

  // -------------------------------------------------------------------- cubic

  /**
   * The cubic segment from p1 to p2 with neighbours p0 and p3: each control
   * point leaves its end along the chord joining that end's two neighbours.
   */
  function CubicThrough(p0: Point, p1: Point, p2: Point, p3: Point, tension: real): Cmd
  {
    C(Point(p1.x + (p2.x - p0.x) * tension, p1.y + (p2.y - p0.y) * tension),
      Point(p2.x - (p3.x - p1.x) * tension, p2.y - (p3.y - p1.y) * tension),
      p2)
  }

  /**
   * The cubic command the loop appends for index i: it runs from points[i]
   * to points[i + 1], its neighbours clamped to the ends of the sequence.
   */
  function CubicSegment(points: seq<Point>, smoothness: real, i: nat): Cmd
    requires i < |points| - 1
  {
    var p0 := if i > 0 then points[i - 1] else points[i];
    var p3 := if i < |points| - 2 then points[i + 2] else points[i + 1];
    CubicThrough(p0, points[i], points[i + 1], p3, 0.3 * smoothness)
  }

  /** The commands the cubic loop has appended after k iterations. */
  function CubicSegments(points: seq<Point>, smoothness: real, k: nat): (r: seq<Cmd>)
    requires k < |points|
    ensures |r| == k && forall j :: 0 <= j < k ==> r[j] == CubicSegment(points, smoothness, j)
  {
    if k == 0 then [] else CubicSegments(points, smoothness, k - 1) + [CubicSegment(points, smoothness, k - 1)]
  }

  /** The path smoothPathCubic describes. */
  function CubicPath(points: seq<Point>, smoothness: real): seq<Cmd>
  {
    if |points| <= 2 || smoothness == 0.0 then PointsToPathData(points)
    else [M(points[0])] + CubicSegments(points, smoothness, |points| - 1)
  }

  /** Up to two points, or zero smoothness, give the straight path through the points. */
  lemma CubicStraightWhenTrivial(points: seq<Point>, smoothness: real)
    ensures |points| <= 2 || smoothness == 0.0 ==>
              IsStraight(CubicPath(points, smoothness)) && Targets(CubicPath(points, smoothness)) == points
  {
  }

  /** The source's smoothPathCubic: appends one cubic command per segment. */
  method SmoothPathCubic(points: seq<Point>, smoothness: real) returns (pathData: seq<Cmd>)
    ensures pathData == CubicPath(points, smoothness)
  {
    if |points| == 0 {
      return [];
    }
    if |points| == 1 {
      assert PointsToPathData(points) == [M(points[0])];
      return [M(points[0])];
    }
    if |points| == 2 {
      assert PointsToPathData(points) == [M(points[0]), L(points[1])];
      return [M(points[0]), L(points[1])];
    }
    if smoothness == 0.0 {
      return PointsToPathData(points);
    }
    pathData := [M(points[0])];
    for i := 0 to |points| - 1
      invariant |pathData| == i + 1 && pathData[0] == M(points[0])
      invariant forall j :: 0 <= j < i ==> pathData[j + 1] == CubicSegment(points, smoothness, j)
    {
      var p0 := if i > 0 then points[i - 1] else points[i];
      var p3 := if i < |points| - 2 then points[i + 2] else points[i + 1];
      var cmd := CubicThrough(p0, points[i], points[i + 1], p3, 0.3 * smoothness);
      pathData := pathData + [cmd];
    }
    assert pathData == [M(points[0])] + CubicSegments(points, smoothness, |points| - 1);
  }

  /**
   * The cubic path passes through every input point, in order: its commands
   * end exactly at the points, and beyond the first move they are all
   * curves once there are three points and the smoothness is not zero.
   */
  lemma CubicInterpolates(points: seq<Point>, smoothness: real)
    ensures Targets(CubicPath(points, smoothness)) == points
    ensures 3 <= |points| && smoothness != 0.0 ==>
              CubicPath(points, smoothness)[0] == M(points[0]) &&
              forall j :: 1 <= j < |points| ==> CubicPath(points, smoothness)[j].C?
  {
    if |points| <= 2 || smoothness == 0.0 {
      CubicStraightWhenTrivial(points, smoothness);
    } else {
      CubicTargets(points, smoothness);
      CubicCurves(points, smoothness);
    }
  }

  /** The first half of CubicInterpolates, off the straight case: the end points are the input. */
  lemma CubicTargets(points: seq<Point>, smoothness: real)
    requires 3 <= |points| && smoothness != 0.0
    ensures Targets(CubicPath(points, smoothness)) == points
  {
    var segs := CubicSegments(points, smoothness, |points| - 1);
    assert CubicPath(points, smoothness) == [M(points[0])] + segs;
    CubicSegmentsEnd(points, smoothness, |points| - 1);
    TargetsConcat([M(points[0])], segs);
    assert points == [points[0]] + points[1..];
  }

  /** The second half of CubicInterpolates: a move, then curves only. */
  lemma CubicCurves(points: seq<Point>, smoothness: real)
    requires 3 <= |points| && smoothness != 0.0
    ensures CubicPath(points, smoothness)[0] == M(points[0])
    ensures forall j :: 1 <= j < |points| ==> CubicPath(points, smoothness)[j].C?
  {
    var segs := CubicSegments(points, smoothness, |points| - 1);
    var r := [M(points[0])] + segs;
    assert CubicPath(points, smoothness) == r;
    CubicSegmentsEnd(points, smoothness, |points| - 1);
    forall j | 1 <= j < |points|
      ensures r[j].C?
    {
      assert r[j] == segs[j - 1];
    }
  }

  /** The end points of two command lists in a row are theirs in a row. */
  lemma TargetsConcat(a: seq<Cmd>, b: seq<Cmd>)
    ensures Targets(a + b) == Targets(a) + Targets(b)
  {
  }

  /** The first k cubic commands are curves ending at points[1 .. k]. */
  lemma CubicSegmentsEnd(points: seq<Point>, smoothness: real, k: nat)
    requires k < |points|
    ensures forall j :: 0 <= j < k ==> CubicSegments(points, smoothness, k)[j].C?
    ensures Targets(CubicSegments(points, smoothness, k)) == points[1..k + 1]
  {
    var segs := CubicSegments(points, smoothness, k);
    forall j | 0 <= j < k
      ensures segs[j].C? && Targets(segs)[j] == points[j + 1]
    {
      CubicSegmentEnds(points, smoothness, j);
    }
  }

  /** The cubic command for index i is a curve ending at points[i + 1]. */
  lemma CubicSegmentEnds(points: seq<Point>, smoothness: real, i: nat)
    requires i < |points| - 1
    ensures CubicSegment(points, smoothness, i).C? && CubicSegment(points, smoothness, i).p == points[i + 1]
  {
  }

  /** The midpoint of a and b. */
  function Mid(a: Point, b: Point): Point
  {
    Point((a.x + b.x) / 2.0, (a.y + b.y) / 2.0)
  }

  /**
   * At every interior point the curve is smooth: the point is the midpoint
   * of the incoming and outgoing control points, so the two tangents line up.
   */
  lemma CubicJoinsSmoothly(points: seq<Point>, smoothness: real, j: nat)
    requires 3 <= |points| && smoothness != 0.0 && 1 <= j < |points| - 1
    ensures Mid(CubicPath(points, smoothness)[j].c2, CubicPath(points, smoothness)[j + 1].c1) == points[j]
  {
    var r := CubicPath(points, smoothness);
    var t := 0.3 * smoothness;
    var before := if j > 1 then points[j - 2] else points[j - 1];
    var after := if j < |points| - 2 then points[j + 2] else points[j + 1];
    assert r[j] == CubicThrough(before, points[j - 1], points[j], points[j + 1], t);
    assert r[j + 1] == CubicThrough(points[j - 1], points[j], points[j + 1], after, t);
    HandlesMirror(before, points[j - 1], points[j], points[j + 1], after, t);
  }

  /** Consecutive segments leave their shared point in opposite directions by the same amount. */
  lemma HandlesMirror(q0: Point, q1: Point, q2: Point, q3: Point, q4: Point, tension: real)
    ensures Mid(CubicThrough(q0, q1, q2, q3, tension).c2, CubicThrough(q1, q2, q3, q4, tension).c1) == q2
  {
  }

  /**
   * At the two ends the neighbour is clamped to the end point itself, so the
   * outer control points lie along the first and last chords.
   */
  lemma CubicEndHandles(points: seq<Point>, smoothness: real)
    requires 3 <= |points| && smoothness != 0.0
    ensures CubicPath(points, smoothness)[1].c1 ==
              Point(points[0].x + (points[1].x - points[0].x) * (0.3 * smoothness),
                    points[0].y + (points[1].y - points[0].y) * (0.3 * smoothness))
    ensures Last(CubicPath(points, smoothness)).c2 ==
              Point(Last(points).x - (Last(points).x - points[|points| - 2].x) * (0.3 * smoothness),
                    Last(points).y - (Last(points).y - points[|points| - 2].y) * (0.3 * smoothness))
  {
    var r := CubicPath(points, smoothness);
    assert r[1] == CubicSegment(points, smoothness, 0);
    assert Last(r) == CubicSegment(points, smoothness, |points| - 2);
  }

  /** A horizontal stroke stays horizontal: every control point keeps the common y. */
  lemma CubicKeepsHorizontalLine(points: seq<Point>, smoothness: real, y: real)
    requires forall i :: 0 <= i < |points| ==> points[i].y == y
    ensures forall j :: 0 <= j < |CubicPath(points, smoothness)| ==> CubicPath(points, smoothness)[j].p.y == y
    ensures forall j :: 0 <= j < |CubicPath(points, smoothness)| && CubicPath(points, smoothness)[j].C? ==>
              CubicPath(points, smoothness)[j].c1.y == y && CubicPath(points, smoothness)[j].c2.y == y
  {
    var r := CubicPath(points, smoothness);
    if 3 <= |points| && smoothness != 0.0 {
      forall j | 1 <= j < |r|
        ensures r[j].p.y == y && r[j].c1.y == y && r[j].c2.y == y
      {
        assert r[j] == CubicSegment(points, smoothness, j - 1);
        var p0 := if j > 1 then points[j - 2] else points[j - 1];
        var p3 := if j < |points| - 1 then points[j + 1] else points[j];
        FlatCubic(p0, points[j - 1], points[j], p3, 0.3 * smoothness, y);
      }
    } else {
      assert Targets(r) == points;
    }
  }

  /** A cubic segment between points at height y has its control points at height y. */
  lemma FlatCubic(p0: Point, p1: Point, p2: Point, p3: Point, tension: real, y: real)
    requires p0.y == y && p1.y == y && p2.y == y && p3.y == y
    ensures CubicThrough(p0, p1, p2, p3, tension).c1.y == y
    ensures CubicThrough(p0, p1, p2, p3, tension).c2.y == y
  {
    assert (p2.y - p0.y) * tension == 0.0 * tension == 0.0;
    assert (p3.y - p1.y) * tension == 0.0 * tension == 0.0;
  }
}
