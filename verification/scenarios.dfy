/**
 * Concrete strokes worked through the model: what the simplifier keeps,
 * which point it splits at, and what the curve builders emit.
 */
module Scenarios {
  import opened Geometry
  import opened Simplification
  import opened Curves
  import opened Smoothing

  /** The squared distance of (1, 0.01) from the chord (0,0)-(2,0). */
  lemma SmallDeviationSquare()
    ensures SquaredPerpendicularDistance(Point(1.0, 0.01), Point(0.0, 0.0), Point(2.0, 0.0)) == 0.0001
  {
    assert Cross(Point(1.0, 0.01), Point(0.0, 0.0), Point(2.0, 0.0)) == -0.02;
    assert Square(-0.02) == 0.0004;
    assert SquaredLength(2.0, 0.0) == 4.0;
  }

  /** With squared distances, the small deviation falls under the squared tolerance 0.25. */
  lemma SmallDeviationDroppedBySquares()
    ensures Simplify([Point(0.0, 0.0), Point(1.0, 0.01), Point(2.0, 0.0)], 0.25, SquaredPerpendicularDistance) ==
              [Point(0.0, 0.0), Point(2.0, 0.0)]
  {
    var points := [Point(0.0, 0.0), Point(1.0, 0.01), Point(2.0, 0.0)];
    SmallDeviationSquare();
    assert Farthest(points, SquaredPerpendicularDistance) == (0.0001, 1);
    SimplifyCollapses(points, 0.25, SquaredPerpendicularDistance);
  }

  /** A midpoint 0.01 off the chord is dropped at tolerance 0.5. */
  lemma SmallDeviationDropped(d: Distance)
    requires IsPerpendicularDistance(d)
    ensures Simplify([Point(0.0, 0.0), Point(1.0, 0.01), Point(2.0, 0.0)], 0.5, d) == [Point(0.0, 0.0), Point(2.0, 0.0)]
  {
    SimplifyBySquares([Point(0.0, 0.0), Point(1.0, 0.01), Point(2.0, 0.0)], 0.5, d);
    assert Square(0.5) == 0.25;
    SmallDeviationDroppedBySquares();
  }

  /** The squared distance of (5, 5) from the chord (0,0)-(10,0). */
  lemma LargeDeviationSquare()
    ensures SquaredPerpendicularDistance(Point(5.0, 5.0), Point(0.0, 0.0), Point(10.0, 0.0)) == 25.0
  {
    assert Cross(Point(5.0, 5.0), Point(0.0, 0.0), Point(10.0, 0.0)) == -50.0;
    assert Square(-50.0) == 2500.0;
    assert SquaredLength(10.0, 0.0) == 100.0;
  }

  /** With squared distances, the large deviation exceeds the squared tolerance 1. */
  lemma LargeDeviationKeptBySquares()
    ensures Simplify([Point(0.0, 0.0), Point(5.0, 5.0), Point(10.0, 0.0)], 1.0, SquaredPerpendicularDistance) ==
              [Point(0.0, 0.0), Point(5.0, 5.0), Point(10.0, 0.0)]
  {
    var points := [Point(0.0, 0.0), Point(5.0, 5.0), Point(10.0, 0.0)];
    LargeDeviationSquare();
    assert Farthest(points, SquaredPerpendicularDistance) == (25.0, 1);
    SimplifySplits(points, 1.0, SquaredPerpendicularDistance);
    assert points[..2] == [Point(0.0, 0.0), Point(5.0, 5.0)];
    assert points[1..] == [Point(5.0, 5.0), Point(10.0, 0.0)];
  }

  /** A midpoint 5 off the chord is kept at tolerance 1. */
  lemma LargeDeviationKept(d: Distance)
    requires IsPerpendicularDistance(d)
    ensures Simplify([Point(0.0, 0.0), Point(5.0, 5.0), Point(10.0, 0.0)], 1.0, d) ==
              [Point(0.0, 0.0), Point(5.0, 5.0), Point(10.0, 0.0)]
  {
    SimplifyBySquares([Point(0.0, 0.0), Point(5.0, 5.0), Point(10.0, 0.0)], 1.0, d);
    assert Square(1.0) == 1.0;
    LargeDeviationKeptBySquares();
  }

  /** Two interior points at the same distance: the split is at the first. */
  lemma TieGoesToFirst()
    ensures Farthest([Point(0.0, 0.0), Point(1.0, 1.0), Point(2.0, 1.0), Point(3.0, 0.0)], SquaredPerpendicularDistance) == (1.0, 1)
  {
    var points := [Point(0.0, 0.0), Point(1.0, 1.0), Point(2.0, 1.0), Point(3.0, 0.0)];
    assert Cross(points[1], points[0], points[3]) == -3.0;
    assert Cross(points[2], points[0], points[3]) == -3.0;
    assert SquaredLength(3.0, 0.0) == 9.0;
    assert Square(-3.0) == 9.0;
    assert SquaredPerpendicularDistance(points[1], points[0], points[3]) == 1.0;
    assert SquaredPerpendicularDistance(points[2], points[0], points[3]) == 1.0;
  }

  /** A two-point stroke comes back unchanged, drawn as a move and a line. */
  method TwoPointStroke() returns (simplifiedPoints: seq<Point>, pathData: seq<Cmd>)
    ensures simplifiedPoints == [Point(0.0, 0.0), Point(1.0, 1.0)]
    ensures pathData == [M(Point(0.0, 0.0)), L(Point(1.0, 1.0))]
  {
    simplifiedPoints, pathData := ApplySmoothing([Point(0.0, 0.0), Point(1.0, 1.0)], 0.8);
    assert PointsToPathData(simplifiedPoints) == [M(Point(0.0, 0.0)), L(Point(1.0, 1.0))];
  }

  /** A horizontal stroke is drawn with curves whose control points all stay on the line. */
  lemma HorizontalStrokeStaysFlat(smoothness: real)
    requires smoothness != 0.0
    ensures var r := CubicPath([Point(0.0, 0.0), Point(10.0, 0.0), Point(20.0, 0.0)], smoothness);
            && |r| == 3 && r[1].C? && r[2].C?
            && r[1].c1.y == 0.0 && r[1].c2.y == 0.0 && r[2].c1.y == 0.0 && r[2].c2.y == 0.0
  {
    var points := [Point(0.0, 0.0), Point(10.0, 0.0), Point(20.0, 0.0)];
    CubicInterpolates(points, smoothness);
    CubicKeepsHorizontalLine(points, smoothness, 0.0);
  }
}
