# Line smoothing for freehand strokes — a Dafny model

The map sketcher's `src/utils/lineSmoothing.ts` provides simplification
and smoothing for freehand strokes: it turns a polyline of points into
SVG path data, in two steps:

1. It thins the stroke with the Ramer–Douglas–Peucker algorithm
   (`simplifyPath`). `simplifyPath` measures each point's perpendicular
   distance from the chord joining the first and last points
   (`perpendicularDistance`). If the farthest point lies beyond the
   tolerance, it splits the stroke there and recurses on both halves.
   Otherwise only the two end points are kept.
2. It describes the kept points as SVG path commands. There are three
   ways to do this:
   - straight segments (`pointsToPathData`);
   - quadratic Bézier segments (`smoothPath`);
   - cubic Bézier segments (`smoothPathCubic`).

`applySmoothing` chains the two steps. It derives the tolerance from the
smoothness setting.

The model has five modules:

- `Geometry` (geometry.dfy): points, and the perpendicular distance held as
  its square.
- `Simplification` (simplification.dfy): the simplifier. It is written over
  any distance function, with the scan loop and the recursion of the
  source.
- `Curves` (curves.dfy): the three path builders. Their output is a list
  of commands `M`, `L`, `Q` and `C`, not a string.
- `Smoothing` (smoothing.dfy): `applySmoothing`.
- `Scenarios` (scenarios.dfy): concrete strokes worked through the model.

The source's loops are methods, and each method is proved equal to a
specification function. Most properties are stated about those functions.

Notes on how the model reads the source:

- **Quadratic segments.** The source emits `Q next, control`, so in SVG the
  control point is the interior point `points[i+1]`. The end point is the
  value the source calls the control point. The model keeps this as
  written: `Q(c, p)` has control point `c == points[i+1]`.
- **Exact reals.** Coordinates are exact reals. The constants 0.5, 2.5
  and 0.3 are the exact decimals.
- **No square root.** Dafny has no real square root. The perpendicular
  distance therefore appears in two forms:
  - through its square `SquaredPerpendicularDistance`, which matches the
    source's formula squared;
  - as any function `d` that satisfies `IsPerpendicularDistance(d)`, i.e.
    the non-negative root of that square.

  `SimplifyBySquares` proves that simplifying with `d` and tolerance `t`
  gives the same result as simplifying with the squared distance and `t*t`.

## Model

| member | source | states |
|---|---|---|
| Geometry.SquaredPerpendicularDistance | src/utils/lineSmoothing.ts:45-63 | The square of the distance of a point from the line through two others is never negative. When the two ends coincide it is the squared distance to the start. |
| Geometry.PerpendicularDistanceUnique | src/utils/lineSmoothing.ts:45-63 | Any two non-negative roots of the squared distance agree at every point and line. The characterisation therefore fixes the source's distance. |
| Geometry.EndpointsOnLine | src/utils/lineSmoothing.ts:56-62 | Both ends of the reference line are at distance zero from it. |
| Geometry.DistanceSymmetric | src/utils/lineSmoothing.ts:45-63 | Swapping lineStart and lineEnd does not change the distance. |
| Geometry.ZeroDistanceIffOnLine | src/utils/lineSmoothing.ts:56-62 | For distinct ends, the distance is zero exactly when the point is a + t·(b − a) for some real t, i.e. lies on the line through them (both directions). |
| Simplification.Scan | src/utils/lineSmoothing.ts:17-27 | The running maximum is never negative. Its index is below the next index to examine. The index is 0 exactly when the maximum is 0. |
| Simplification.ScanFindsFirstMaximum | src/utils/lineSmoothing.ts:21-26 | Every examined interior distance is at most the maximum. A non-zero index attains the maximum. Every earlier index is strictly smaller, so the first of several equal maxima wins. |
| Simplification.SplitIsInterior | src/utils/lineSmoothing.ts:17-32 | If the maximum exceeds a tolerance of at least 0, the split index lies in 1 .. n-2. Both halves are then strictly shorter. |
| Simplification.Simplify | src/utils/lineSmoothing.ts:13-40 | Up to two points are returned unchanged. Otherwise the result has between 2 and n points. |
| Simplification.SimplifyKeepsEnds | src/utils/lineSmoothing.ts:30-39 | For two or more points, the result starts with the first input point and ends with the last. |
| Simplification.FindFarthest | src/utils/lineSmoothing.ts:17-27 | The scan loop returns exactly the scan's maximum and its index. A loop invariant ties (maxDistance, maxIndex) after each step to `Scan`. |
| Simplification.SimplifyPath | src/utils/lineSmoothing.ts:13-40 | The scan and the recursion compute exactly `Simplify`. |
| Simplification.CollapseIffWithin | src/utils/lineSmoothing.ts:30-38 | For three or more points, the result has two points iff every interior point is within the tolerance, and it is then `[first, last]`. |
| Simplification.SplitJoinsOnce | src/utils/lineSmoothing.ts:31-35 | When split, the simplified left half ends and the simplified right half starts at the split point, so dropping the left half's last point keeps one copy of it. |
| Simplification.NoProgressBelowZero | src/utils/lineSmoothing.ts:17-32 | With a negative tolerance and all interior points on the chord, the split index is 0. The right half is then the whole input again. |
| Simplification.SimplifyIsFaithfulSubsequence | src/utils/lineSmoothing.ts:30-39 | The result is an order-preserving subsequence of the input that starts at index 0 and ends at n-1. Every dropped point lies within the tolerance of the chord between the two kept points around it. |
| Simplification.CollapsedIsFaithful | src/utils/lineSmoothing.ts:36-38 | When the maximum is within the tolerance, every interior point is within the tolerance of the chord. |
| Simplification.ScanRescaled | src/utils/lineSmoothing.ts:21-26 | Scanning with a distance rescaled by an order-preserving map yields the same index, and the rescaled maximum. |
| Simplification.SimplifyRescaled | src/utils/lineSmoothing.ts:13-40 | Rescaling the distance and the tolerance by the same order-preserving map keeps the same points. |
| Simplification.SimplifyBySquares | src/utils/lineSmoothing.ts:13-40 | Simplifying with the perpendicular distance and tolerance t equals simplifying with the squared distance and t*t. |
| Curves.PointsToPathData | src/utils/lineSmoothing.ts:151-157 | The straight path data is a move followed only by lines. Its commands end at the input points, in order. |
| Curves.StraightPathUnique | src/utils/lineSmoothing.ts:151-157 | Every straight path is the straight path data of the points it visits, so the two are inverse. |
| Curves.QuadraticStraightWhenTrivial | src/utils/lineSmoothing.ts:73-82 | With up to two points or zero smoothness, the quadratic path is a move followed only by lines, ending at the input points in order. |
| Curves.SmoothPath | src/utils/lineSmoothing.ts:72-110 | The appending loop and the early returns for 0, 1 and 2 points and zero smoothness produce exactly `QuadraticPath`. |
| Curves.QuadraticShape | src/utils/lineSmoothing.ts:85-109 | For n ≥ 3 and non-zero smoothness: a move to the first point, then for each interior point a `Q` with that point as control, then a final line to the last point. There are n commands. |
| Curves.QuadEndOnChord | src/utils/lineSmoothing.ts:97-103 | A quadratic segment ends on the chord from `next` to `nextNext`, smoothness/4 of the way along. |
| Curves.CubicStraightWhenTrivial | src/utils/lineSmoothing.ts:116-124 | With up to two points or zero smoothness, the cubic path is a move followed only by lines, ending at the input points in order. |
| Curves.SmoothPathCubic | src/utils/lineSmoothing.ts:115-146 | The appending loop and the early returns produce exactly `CubicPath`. |
| Curves.CubicInterpolates | src/utils/lineSmoothing.ts:126-145 | The cubic path ends its commands at every input point, in order. For n ≥ 3 and non-zero smoothness, it is a move followed only by cubic curves. |
| Curves.CubicJoinsSmoothly | src/utils/lineSmoothing.ts:128-142 | Each interior point is the midpoint of its incoming and outgoing control points, so the tangents line up. |
| Curves.CubicEndHandles | src/utils/lineSmoothing.ts:129-140 | Because the outer neighbours are clamped, the first and last control points lie along the first and last chords, 0.3·smoothness of the way. |
| Curves.CubicKeepsHorizontalLine | src/utils/lineSmoothing.ts:126-145 | If all points share one y, every end point and control point of the cubic path has that y. |
| Smoothing.Tolerance | src/utils/lineSmoothing.ts:176-178 | The tolerance lies in [0.5, 3.0] for smoothness in [0, 1]. It is non-negative exactly when smoothness ≥ -0.2. |
| Smoothing.ToleranceMonotone | src/utils/lineSmoothing.ts:176-178 | A larger smoothness never gives a smaller tolerance. |
| Smoothing.ApplySmoothing | src/utils/lineSmoothing.ts:165-185 | Up to two points come back unchanged, with straight path data. Otherwise the points are simplified with the tolerance for the smoothness (for every perpendicular distance) and drawn as `CubicPath`. In both cases the path ends at the returned points, which keep the input's ends and are no more than the input. |
| Scenarios.SmallDeviationDropped | src/utils/lineSmoothing.ts:36-38 | (0,0),(1,0.01),(2,0) at tolerance 0.5 becomes (0,0),(2,0). |
| Scenarios.LargeDeviationKept | src/utils/lineSmoothing.ts:30-35 | (0,0),(5,5),(10,0) at tolerance 1 is kept whole. |
| Scenarios.TieGoesToFirst | src/utils/lineSmoothing.ts:21-26 | With two interior points at equal distance, the scan picks index 1. |
| Scenarios.TwoPointStroke | src/utils/lineSmoothing.ts:169-174 | The stroke (0,0),(1,1) at smoothness 0.8 comes back unchanged, as a move and a line. |
| Scenarios.HorizontalStrokeStaysFlat | src/utils/lineSmoothing.ts:128-142 | The stroke (0,0),(10,0),(20,0) is drawn with cubic curves whose control points all have y = 0. |

## Left out

- Floating point: coordinates, the tension 0.3 and the tolerance factor 2.5 are exact reals. IEEE rounding, `Math.pow`, `Math.sqrt` and ties that arise from rounding error are not modelled.
- Geometry.SquaredPerpendicularDistance: the distance itself needs a real square root, which Dafny does not have. The model keeps its square and characterises the distance by `IsPerpendicularDistance`.
- Smoothing.ApplySmoothing: it simplifies with the squared distance and the squared tolerance rather than taking roots. `SimplifyBySquares` shows this selects the same points as the source's distance.
- Simplification.Simplify: requires a tolerance ≥ 0. With a negative tolerance and every interior point on the chord, the source recurses on its own input without end (`NoProgressBelowZero`). So `ApplySmoothing` requires smoothness ≥ -0.2 for strokes of more than two points.
- Simplification.Simplify: idempotence is not claimed. The code makes no such promise, and Ramer–Douglas–Peucker need not be idempotent.
- SVG text: the formatting of numbers and the joining of commands with spaces are not modelled. Path data is a list of `Cmd` values.
- Identity: for up to two points the source returns the caller's own array. The model returns an equal value, so aliasing is not captured.
- NaN and infinite coordinates are not modelled. JavaScript's `smoothness === 0` also holds for -0; reals have a single zero.
- The React components `src/components/Canvas.tsx`, `src/components/Toolbar.tsx`, `src/components/PropertiesPanel.tsx` and `src/App.tsx` are not part of this model. They handle mouse capture, drawing state and rendering. The canvas draws strokes with its own copy of `pointsToPathData` and does not call `applySmoothing`; none of these files imports the module modelled here.
