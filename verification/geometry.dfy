/**
 * Points in the plane and the perpendicular distance of a point from the
 * line through two others (src/utils/lineSmoothing.ts:1-4, 45-63).
 *
 * Coordinates are exact reals. The source takes a square root; the model
 * keeps the SQUARE of the distance, which needs no root, and characterises
 * the distance itself as the non-negative root of it.
 */
module Geometry {

  /** A point with real coordinates; a value with no identity beyond them. */
  datatype Point = Point(x: real, y: real)

  /** The last element of a non-empty sequence. */
  function Last<T>(s: seq<T>): T
    requires |s| > 0
  {
    s[|s| - 1]
  }

  /** The square of a real, with its sign facts. */
  function Square(v: real): (r: real)
    ensures 0.0 <= r
    ensures r == 0.0 <==> v == 0.0
  {
    SquareNonNegative(v, v * v);
    if v != 0.0 then
      SquarePositive(v, v * v);
      v * v
    else
      v * v
  }

  /** The squared Euclidean length of the vector (dx, dy). */
  function SquaredLength(dx: real, dy: real): (r: real)
    ensures 0.0 <= r
    ensures r == 0.0 <==> dx == 0.0 && dy == 0.0
  {
    Square(dx) + Square(dy)
  }

  /** The numerator of the point-to-line formula, before its absolute value is taken. */
  function Cross(p: Point, a: Point, b: Point): real
  {
    var dx := b.x - a.x;
    var dy := b.y - a.y;
    dy * p.x - dx * p.y + b.x * a.y - b.y * a.x
  }

  /**
   * The square of the perpendicular distance of p from the line through a and b.
   * When a and b coincide the line degenerates and the distance is the
   * Euclidean distance from p to a.
   */
  function SquaredPerpendicularDistance(p: Point, a: Point, b: Point): (r: real)
    ensures 0.0 <= r
  {
    var dx := b.x - a.x;
    var dy := b.y - a.y;
    if dx == 0.0 && dy == 0.0 then
      SquaredLength(p.x - a.x, p.y - a.y)
    else
      QuotientNonNegative(Square(Cross(p, a, b)), SquaredLength(dx, dy));
      Square(Cross(p, a, b)) / SquaredLength(dx, dy)
  }

  lemma ProductNonNegative(u: real, v: real, s: real)
    requires 0.0 <= u && 0.0 <= v && s == u * v
    ensures 0.0 <= s
  {
  }

  lemma ProductPositive(u: real, v: real, s: real)
    requires 0.0 < u && 0.0 < v && s == u * v
    ensures 0.0 < s
  {
  }

  lemma SquareNonNegative(v: real, s: real)
    requires s == v * v
    ensures 0.0 <= s
  {
    if v < 0.0 {
      assert s == (-v) * (-v);
      ProductNonNegative(-v, -v, s);
    } else {
      ProductNonNegative(v, v, s);
    }
  }

  lemma SquarePositive(v: real, s: real)
    requires v != 0.0 && s == v * v
    ensures 0.0 < s
  {
    if v < 0.0 {
      assert s == (-v) * (-v);
      ProductPositive(-v, -v, s);
    } else {
      ProductPositive(v, v, s);
    }
  }

  lemma QuotientNonNegative(n: real, d: real)
    requires 0.0 <= n && 0.0 < d
    ensures 0.0 <= n / d
  {
  }

  lemma QuotientZero(n: real, d: real)
    requires 0.0 < d
    ensures n / d == 0.0 <==> n == 0.0
  {
  }

  /**
   * d is the perpendicular distance of the source: for every point and
   * line it is the non-negative square root of SquaredPerpendicularDistance.
   */
  ghost predicate IsPerpendicularDistance(d: (Point, Point, Point) -> real)
  {
    forall p, a, b :: 0.0 <= d(p, a, b) && Square(d(p, a, b)) == SquaredPerpendicularDistance(p, a, b)
  }

  /** On non-negative reals, squaring preserves and reflects the order. */
  lemma SquareOrder(u: real, v: real)
    requires 0.0 <= u && 0.0 <= v
    ensures u < v <==> Square(u) < Square(v)
  {
    if u < v {
      assert Square(v) - Square(u) == (v - u) * (v + u);
      ProductPositive(v - u, v + u, Square(v) - Square(u));
    } else {
      assert Square(u) - Square(v) == (u - v) * (u + v);
      ProductNonNegative(u - v, u + v, Square(u) - Square(v));
    }
  }

  /** Two non-negative reals with the same square are equal. */
  lemma SquareRootUnique(u: real, v: real)
    requires 0.0 <= u && 0.0 <= v && Square(u) == Square(v)
    ensures u == v
  {
    SquareOrder(u, v);
    SquareOrder(v, u);
  }

  /** The characterisation determines the distance: any two such functions agree. */
  lemma PerpendicularDistanceUnique(d1: (Point, Point, Point) -> real, d2: (Point, Point, Point) -> real, p: Point, a: Point, b: Point)
    requires IsPerpendicularDistance(d1) && IsPerpendicularDistance(d2)
    ensures d1(p, a, b) == d2(p, a, b)
  {
    SquareRootUnique(d1(p, a, b), d2(p, a, b));
  }

  /** Both ends of the reference line lie on it. */
  lemma EndpointsOnLine(a: Point, b: Point)
    ensures SquaredPerpendicularDistance(a, a, b) == 0.0
    ensures SquaredPerpendicularDistance(b, a, b) == 0.0
  {
    var dx := b.x - a.x;
    var dy := b.y - a.y;
    if dx != 0.0 || dy != 0.0 {
      assert Cross(a, a, b) == 0.0 by {
        assert dy * a.x == b.y * a.x - a.y * a.x;
        assert dx * a.y == b.x * a.y - a.x * a.y;
      }
      assert Cross(b, a, b) == 0.0 by {
        assert dy * b.x == b.y * b.x - a.y * b.x;
        assert dx * b.y == b.x * b.y - a.x * b.y;
      }
      QuotientZero(Square(0.0), SquaredLength(dx, dy));
    }
  }

  /** The distance does not depend on the direction in which the line is traversed. */
  lemma DistanceSymmetric(p: Point, a: Point, b: Point)
    ensures SquaredPerpendicularDistance(p, a, b) == SquaredPerpendicularDistance(p, b, a)
  {
    var c := Cross(p, a, b);
    assert Cross(p, b, a) == -c by {
      assert (a.y - b.y) * p.x == -((b.y - a.y) * p.x);
      assert (a.x - b.x) * p.y == -((b.x - a.x) * p.y);
    }
    assert Square(-c) == Square(c);
    assert Square(a.x - b.x) == Square(b.x - a.x);
    assert Square(a.y - b.y) == Square(b.y - a.y);
  }

  /** Off the degenerate case, the distance is zero exactly when the numerator of the formula is. */
  lemma ZeroDistanceIffCrossZero(p: Point, a: Point, b: Point)
    requires a != b
    ensures SquaredPerpendicularDistance(p, a, b) == 0.0 <==> Cross(p, a, b) == 0.0
  {
    var dx := b.x - a.x;
    var dy := b.y - a.y;
    QuotientZero(Square(Cross(p, a, b)), SquaredLength(dx, dy));
  }

  /** The point t of the way from a to b, for any real t: the points of the line through a and b. */
  function Along(a: Point, b: Point, t: real): Point
  {
    Point(a.x + t * (b.x - a.x), a.y + t * (b.y - a.y))
  }

  /** The numerator of the formula, written in offsets from a. */
  lemma CrossFromStart(p: Point, a: Point, b: Point)
    ensures Cross(p, a, b) == (b.y - a.y) * (p.x - a.x) - (b.x - a.x) * (p.y - a.y)
  {
  }

  /** A non-zero factor cancels from both sides of an equation. */
  lemma CancelFactor(d: real, u: real, v: real)
    requires d != 0.0 && d * u == d * v
    ensures u == v
  {
    assert d * (u - v) == 0.0;
  }

  /** A point on the line has a zero numerator. */
  lemma OnLineCrossZero(a: Point, b: Point, t: real)
    ensures Cross(Along(a, b, t), a, b) == 0.0
  {
    var dx := b.x - a.x;
    var dy := b.y - a.y;
    var p := Along(a, b, t);
    CrossFromStart(p, a, b);
    assert p.x - a.x == t * dx && p.y - a.y == t * dy;
    assert dy * (t * dx) == dx * (t * dy);
  }

  /** A point with a zero numerator lies on the line through distinct a and b. */
  lemma CrossZeroOnLine(p: Point, a: Point, b: Point) returns (t: real)
    requires a != b && Cross(p, a, b) == 0.0
    ensures p == Along(a, b, t)
  {
    var dx := b.x - a.x;
    var dy := b.y - a.y;
    var u := p.x - a.x;
    var v := p.y - a.y;
    CrossFromStart(p, a, b);
    assert dy * u == dx * v;
    if dx != 0.0 {
      t := u / dx;
      assert t * dx == u;
      assert dx * (t * dy) == dx * v by {
        assert dx * (t * dy) == (t * dx) * dy;
      }
      CancelFactor(dx, t * dy, v);
    } else {
      t := v / dy;
      assert t * dy == v;
      assert dy * (t * dx) == dy * u by {
        assert dy * (t * dx) == (t * dy) * dx;
      }
      CancelFactor(dy, t * dx, u);
    }
  }

  /**
   * Off the degenerate case, the distance is zero exactly when p lies on
   * the line through a and b, that is, p is a + t(b - a) for some real t.
   */
  lemma ZeroDistanceIffOnLine(p: Point, a: Point, b: Point)
    requires a != b
    ensures SquaredPerpendicularDistance(p, a, b) == 0.0 <==> exists t :: p == Along(a, b, t)
  {
    ZeroDistanceIffCrossZero(p, a, b);
    if SquaredPerpendicularDistance(p, a, b) == 0.0 {
      var t := CrossZeroOnLine(p, a, b);
    }
    if exists t :: p == Along(a, b, t) {
      var t :| p == Along(a, b, t);
      OnLineCrossZero(a, b, t);
    }
  }
}
