/**
 * The module's combined operation: simplify a stroke, then describe it
 * with cubic segments (src/utils/lineSmoothing.ts:159-185).
 */
module Smoothing {
  import opened Geometry
  import opened Simplification
  import opened Curves

  /** The simplification tolerance for a smoothness: 0.5 at 0, growing by 2.5 per unit. */
  function Tolerance(smoothness: real): (t: real)
    ensures 0.0 <= smoothness <= 1.0 ==> 0.5 <= t <= 3.0
    ensures 0.0 <= t <==> -0.2 <= smoothness
  {
    0.5 + smoothness * 2.5
  }

  /** A smoother setting never simplifies with a smaller tolerance. */
  lemma ToleranceMonotone(s1: real, s2: real)
    requires s1 <= s2
    ensures Tolerance(s1) <= Tolerance(s2)
  {
  }

  /**
   * The source's applySmoothing. Strokes of at most two points come back
   * unchanged with straight path data; longer ones are simplified with the
   * tolerance for the smoothness and drawn with cubic segments. The model
   * compares squared distances against the squared tolerance, which selects
   * the same points as the perpendicular distance itself.
   */
  method ApplySmoothing(points: seq<Point>, smoothness: real) returns (simplifiedPoints: seq<Point>, pathData: seq<Cmd>)
    requires 2 < |points| ==> 0.0 <= Tolerance(smoothness)
    ensures |points| <= 2 ==> simplifiedPoints == points && pathData == PointsToPathData(points)
    ensures 2 < |points| ==>
              && simplifiedPoints == Simplify(points, Square(Tolerance(smoothness)), SquaredPerpendicularDistance)
              && (forall d :: IsPerpendicularDistance(d) ==> simplifiedPoints == Simplify(points, Tolerance(smoothness), d))
              && pathData == CubicPath(simplifiedPoints, smoothness)
    ensures Targets(pathData) == simplifiedPoints
    ensures 2 <= |points| ==>
              && 2 <= |simplifiedPoints| <= |points|
              && simplifiedPoints[0] == points[0]
              && Last(simplifiedPoints) == Last(points)
  {
    if |points| <= 2 {
      return points, PointsToPathData(points);
    }
    var tolerance := Tolerance(smoothness);
    simplifiedPoints := SimplifyPath(points, Square(tolerance), SquaredPerpendicularDistance);
    forall d | IsPerpendicularDistance(d)
      ensures simplifiedPoints == Simplify(points, tolerance, d)
    {
      SimplifyBySquares(points, tolerance, d);
    }
    SimplifyKeepsEnds(points, Square(tolerance), SquaredPerpendicularDistance);
    pathData := SmoothPathCubic(simplifiedPoints, smoothness);
    CubicInterpolates(simplifiedPoints, smoothness);
  }
}
