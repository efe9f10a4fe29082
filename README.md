# 2d-optics: a verified model of the ray tracer's geometry

2d-optics draws a two-dimensional optical bench in a window. A draggable
ray source is one such element. There is also a prism (a trapezoid of glass)
and a biconvex lens, both of refractive index 1.65.

From the source, a ray is cast and traced through the scene:
- each element reports where the ray's line cuts it;
- the nearest cut ahead of the ray's origin is taken;
- the ray is refracted there, and the tracing recurses up to a depth of five.

A ray that hits nothing is drawn out to the window's border.

This project models that core in Dafny:

| file | module | contents |
|---|---|---|
| `geometry.dfy` | `Geometry` | points, implicit lines `a*x + b*y + c == 0`, the line through two points, and the floating-point library as an abstract `Math` value |
| `line_algebra.dfy` | `LineAlgebra` | `calc_intersection`, `calc_intersection_circle`, `calc_crossing_line`, `calc_direction` |
| `elements.dfy` | `Elements` | `Polygon` and `Lens`: their constructors and `intersections` |
| `scene.dfy` | `Scene` | `Plane`: its constructor, `pry`, `intersections` (the window border) and `cast_ray` |
| `ray_source.dfy` | `RaySource` | `Line.calc_line`: the ray source's coefficients and propagation sense |

Code that computes values is modelled as functions. This covers the line algebra, the element hit lists and the recursion of `cast_ray`.

Code that mutates or loops is modelled as methods proved equal to those functions:
- `Line.calc_line`, which updates the object's fields;
- the `intersections` methods, which append to a list edge by edge;
- the loops in `cast_ray` and `calc_intersection_circle`;
- `cast_ray` itself.

A Python `ZeroDivisionError` on any path is the `ZeroDivision` case of a `Result`.

The library functions are fields of the `Math` value: `pi`, `sin`, `cos`, `tan`, `asin`, `atan` and `sqrt`. They are arbitrary total functions, so nothing proved depends on their values. Numbers are exact reals.

`cast_ray` draws on a canvas. Its model, `Scene.Plane.Trace`, returns instead the segments it would draw, deepest level first:
- red for each collision;
- blue for a ray that leaves the window.

## Model

| member | source | states |
|---|---|---|
| Geometry.LineThrough | main.py:66-69 | both points satisfy the equation; a = b = 0 exactly when the points coincide; b = 0 exactly when they share x |
| Geometry.LineThroughContainsSpan | main.py:66-69 | every point v1 + t(v2 - v1) lies on the computed line |
| Geometry.LineThroughOnlySpan | main.py:66-69 | for distinct points every solution of the equation is such a point, so the equation is exactly the line through them |
| Geometry.Dist | main.py:21-22 | the distance is the root (`**0.5`) of SquaredDist, so the distance from a point to itself is the root of 0 |
| Geometry.SquaredDist | main.py:21-22 | the sum of the squared coordinate differences is never negative and is 0 for coincident points |
| Geometry.DistSymmetric | main.py:21-22 | the distance is the same measured from either point |
| LineAlgebra.CramerSolves | main.py:473-477 | for D != 0 the point (Dx/D, Dy/D) satisfies both equations |
| LineAlgebra.SlopeProduct | main.py:480-483 | the slope test k1*k2 == -1 holds exactly when the normals are orthogonal |
| LineAlgebra.IntersectionAngle | main.py:478-492 | the angle is missing only when both lines are vertical; orthogonal non-vertical lines give pi/2 |
| LineAlgebra.CalcIntersection | main.py:472-493 | None exactly when D == 0; otherwise the point lies on both lines and the surface is the second line; both lines vertical gives None because D == 0, so the final `return None` is unreachable; orthogonal non-vertical lines give angle pi/2 |
| LineAlgebra.CommonPointIsCramer | main.py:473-477 | any common point of two non-parallel lines is Cramer's point |
| LineAlgebra.CalcIntersectionUnique | main.py:472-493 | for D != 0 the reported point is the only common point of the two lines |
| LineAlgebra.CalcIntersectionSymmetric | main.py:472-493 | swapping the lines changes neither whether a point is found nor the point |
| LineAlgebra.TangentLineThroughPointIffOnCircle | main.py:539-541 | the surface line built at a point passes through it exactly when the point is on the circle |
| LineAlgebra.DenominatorIsTwiceSumOfSquares | main.py:500-506 | the denominator used in the model equals the source's 2(a^2 + b^2) |
| LineAlgebra.TangentLine | main.py:539-541 | the surface line at a circle point has the radius vector as its normal, and its equation at that point is the squared distance from the centre less the squared radius |
| LineAlgebra.CircleDiscriminant | main.py:498 | D equals 4b^2 (R^2 (a^2 + b^2) - e^2), e the line's equation at the centre: for b != 0, positive exactly when the line passes closer to the centre than R |
| LineAlgebra.Root | main.py:500-508 | the root's x times 2(a^2 + b^2) is the numerator, and the root lies on the line |
| LineAlgebra.QuadraticRoots | main.py:498-510 | two roots when D > 0, one when D == 0, none when D < 0, all on the line |
| LineAlgebra.SlantedCirclePoints | main.py:497-510 | at most two candidate points, all on the line |
| LineAlgebra.CirclePoints | main.py:497-536 | at most two candidate points, all on the probe line; none for a degenerate line |
| LineAlgebra.TangentCrossings | main.py:537-546 | every kept crossing is a candidate point, with the surface line built at it and calc_intersection's angle for it; every candidate whose surface line is not parallel to the probe is kept |
| LineAlgebra.KeepCrossings | main.py:537-546 | the loop's result is TangentCrossings of the candidates |
| LineAlgebra.CalcIntersectionCircle | main.py:496-546 | the result is TangentCrossings of CirclePoints: at most two crossings, each on the probe line |
| LineAlgebra.CrossingLine | main.py:549-584 | angle 0 or pi returns the line unchanged; every other branch except the vertical one passes through the point; the vertical branch returns x + verticalC = 0; a quarter turn is perpendicular; ZeroDivision exactly in the quarter-turn branch when its denominator vanishes; a turned line is degenerate (0 = 0) exactly in the slanted quarter turn of a line with c == 0 |
| LineAlgebra.TurnedLine | main.py:552-569 | an infinite turned slope gives the vertical line with the given constant; otherwise the line passes through the point; never degenerate |
| LineAlgebra.QuarterTurn | main.py:571-575 | ZeroDivision exactly when -b/a*x + y == 0; otherwise the equation holds at the point and its normal is perpendicular to the original, and it is the degenerate 0 = 0 exactly when c == 0 (then those two facts say nothing) |
| LineAlgebra.QuarterTurnFacts | main.py:573-575 | the computed a2, b2, c pass through the point, and (a2, b2) is orthogonal to (a, b) |
| LineAlgebra.CalcCrossingLineAsWritten | main.py:549-584 | the function as written: angle 0 or pi leaves the line unchanged; ZeroDivision only for a quarter turn of a slanted line; a turned line is degenerate exactly in the slanted quarter turn with c == 0 |
| LineAlgebra.CalcCrossingLine | main.py:549-584 | corrected vertical branch: angle 0 or pi leaves the line unchanged; otherwise the line passes through the point; a quarter turn is perpendicular; ZeroDivision exactly in the quarter-turn case with a vanishing denominator; a turned line is degenerate exactly in the slanted quarter turn with c == 0 |
| LineAlgebra.VerticalBranchMissesPoint | main.py:559-563 | as written, the vertical branch yields x = -point.x, which passes through the point only when point.x == 0 |
| LineAlgebra.VerticalBranchCounterexample | main.py:559-563 | with t the library's tan(pi/4), turning x + t*y - 1 = 0 about (1, 0) by pi/4 reaches the vertical branch and gives x + 1 = 0, which misses (1, 0) |
| LineAlgebra.VerticalBranchHitsPoint | main.py:559-563 | the corrected vertical branch yields x = point.x, through the point |
| LineAlgebra.CheckPoint | main.py:589-592 | point_chck lies on the outgoing line, one unit past the collision in x (in y for a vertical line) |
| LineAlgebra.CalcDirection | main.py:587-623 | ZeroDivision exactly for a degenerate outgoing line; otherwise the result is same_side != get_trough |
| LineAlgebra.CalcDirectionFlip | main.py:617-623 | flipping get_trough negates the result |
| LineAlgebra.AboveIsPositiveSide | main.py:594-604 | the "above the surface" comparison is the sign test of b times the line's equation |
| LineAlgebra.SameSide | main.py:594-615 | for a non-vertical surface, same_side holds exactly when both points are, or both are not, on the positive side of the surface line |
| LineAlgebra.SameSideIsHalfPlaneTest | main.py:594-615 | for a surface through the collision, same_side holds exactly when the origin and point_chck are on the same side of the surface line |
| Elements.Clip | main.py:176-180 | at most one crossing, on both the probe and the edge, inside the edge's span, with the edge as surface |
| Elements.ClipComplete | main.py:176-180 | a common point of a non-parallel probe and edge inside the span is always reported |
| Elements.EdgeHits | main.py:176-180 | at most one hit, on the probe and the edge, in the span, tagged with the element's index |
| Elements.AppendEdgeHit | main.py:176-180 | appending one edge's block adds exactly EdgeHits |
| Elements.ArcHits | main.py:299-309 | kept hits pass the arc test, come from the circle crossings, and carry the index; every crossing that passes the test is kept |
| Elements.AppendArcHits | main.py:299-309 | the loop appends exactly ArcHits |
| Elements.Polygon.constructor | main.py:108-132 | both lengths for each case of the angle sum: equal when it is pi, the bottom widened by width/tan of each angle when it is less, the top widened by width*tan(angle - pi/2) of each angle when it is more; corners clockwise from the base, the third offset by width/tan(angle_r) unless angle_r is pi/2; top and bottom edges horizontal, width apart |
| Elements.Polygon.TopHits | main.py:175-180 | at most one hit, strictly between the top corners' x, on the top edge, tagged |
| Elements.Polygon.RightHits | main.py:182-195 | at most one hit, within the right edge's inclusive bounds for each angle case, tagged |
| Elements.Polygon.RightSpan | main.py:186-194 | a y-range exactly when angle_r is pi/2, from the lower to the upper end; otherwise an x-range whose bounds are the edge's two ends |
| Elements.Polygon.BottomHits | main.py:196-201 | at most one hit, strictly between the bottom corners' x, tagged |
| Elements.Polygon.LeftHits | main.py:203-216 | at most one hit, within the left edge's inclusive bounds for each angle case, tagged |
| Elements.Polygon.LeftSpan | main.py:207-215 | a y-range exactly when angle_l is pi/2, from the lower to the upper end; otherwise an x-range whose bounds are the edge's two ends |
| Elements.Polygon.Hits | main.py:173-217 | at most four hits, each on the probe and its surface, all tagged with the polygon's index |
| Elements.Polygon.Intersections | main.py:173-217 | the list built edge by edge is Hits |
| Elements.Lens.constructor | main.py:221-243 | convexity from the radius sign; radii made positive; alpha_l and alpha_r are asin(width / (2 rad)); bases, and centres offset from them by rad*cos(alpha) inwards when convex and outwards when concave |
| Elements.Lens.TopHits | main.py:293-297 | at most one hit, on the top face with x between the bases inclusive, tagged |
| Elements.Lens.BottomHits | main.py:310-314 | at most one hit, on the bottom face with x between the bases inclusive, tagged |
| Elements.Lens.CircleCrossings | main.py:300 | at most two crossings with a side's circle, each on the probe |
| Elements.Lens.RightHits | main.py:299-309 | at most two hits, inside the band and on the outer side of the right centre, tagged |
| Elements.Lens.LeftHits | main.py:316-326 | at most two hits, inside the band and on the outer side of the left centre, tagged |
| Elements.Lens.Hits | main.py:290-327 | at most six hits, each on the probe, all tagged with the lens's index |
| Elements.Lens.Intersections | main.py:290-327 | the list built face by face and point by point is Hits |
| Elements.Element.Hits | main.py:381 | each element's hits lie on the probe and carry that element's index |
| Elements.Element.Intersections | main.py:381 | dispatching obj.intersections returns that element's Hits |
| Scene.AheadIsNotBehind | main.py:382-395 | a point that passes the collision test (margin eps) also passes the exit test and is not the origin |
| Scene.Ahead | main.py:382-395 | a hit is kept by the collision loop exactly when it lies at least eps beyond the origin along the ray's axis, in the ray's sense |
| Scene.NotBehind | main.py:437-450 | a border crossing is kept by the exit loop exactly when it lies at or beyond the origin along the ray's axis, in the ray's sense |
| Scene.Candidates | main.py:380-381 | every candidate lies on the probe and carries the index of an element of the list |
| Scene.PickIndex | main.py:377-399 | the chosen hit is ahead of the origin by eps; nothing is chosen exactly when no hit is ahead; no hit ahead is nearer; every earlier hit ahead is strictly farther, so the first of equals wins |
| Scene.StepCollision | main.py:396-399 | one loop step keeps the old collision unless the hit is ahead and strictly nearer, or nothing was chosen yet |
| Scene.Consider | main.py:382-399 | one loop step maintains collision == Collision(hits seen) and min_dist == its distance |
| Scene.ConsiderAll | main.py:381-399 | the inner loop maintains the same invariant over one element's hits |
| Scene.Plane.NearestCollision | main.py:377-399 | the collision the loops end with is Collision of all elements' hits |
| Scene.ExitIndex | main.py:435-451 | the kept crossing is not behind the origin, no later one is, and nothing is kept exactly when every crossing is behind |
| Scene.LastNotBehind | main.py:435-451 | the exit loop's point is ExitPoint of the border crossings |
| Scene.Plane.DrawExit | main.py:435-454 | the blue segment drawn is ExitSegments |
| Scene.Plane.ExitSegments | main.py:435-454 | at most one segment, from the origin, blue |
| Scene.Plane.ExitSegmentsOnBorder | main.py:435-454 | the blue segment ends at a border crossing not behind the origin; none is drawn exactly when every border crossing is behind |
| Scene.Plane.constructor | main.py:331-341 | main_axis_y is res_y // 2; two elements, both of index 1.65: a prism based at (200, 50) with top length 100, width 100 and base angles pi/3, then a convex lens based at (600, 70) with length 50, width 140 and radii 70 |
| Scene.Plane.Pry | main.py:346-347 | pry(y) + y == main_axis_y |
| Scene.Plane.PryInvolution | main.py:346-347 | pry is its own inverse |
| Scene.Plane.BorderCrossings | main.py:349-371 | at most four crossings, each on the probe and on one border within its range: open in x on the top and bottom, closed in y on the sides |
| Scene.AppendClip | main.py:351-355 | appending one border's block adds exactly that border's Clip |
| Scene.Plane.Intersections | main.py:349-371 | the list built border by border is BorderCrossings |
| Scene.Reflection | main.py:402-406 | the step raises exactly when calc_crossing_line (as written) raises on twice the angle or returns the degenerate 0 = 0, which calc_direction divides by; an Ok sense is calc_direction's for the reflected line with get_through false |
| Scene.ReflectionRaises | main.py:402-406 | in terms of the collision: for twice the angle 0 or pi the step raises exactly when the probe is degenerate; otherwise exactly at twice the angle pi/2 on a slanted probe whose turned line's denominator vanishes or whose c is 0 |
| Scene.ReflectionThroughOriginRaises | main.py:402-406 | a collision at angle pi/4 on a slanted probe with c == 0 makes the reflection step raise: the turned line is 0 = 0 and calc_direction divides by zero (main.py:589-592) |
| Scene.RefractionAngle | main.py:423-426 | ZeroDivision exactly when the angle or n2 is zero |
| Scene.Plane.Refract | main.py:401-433 | n2 is the plane's index when the hit's index equals the current index, otherwise the hit's index; an Ok result implies a nonzero angle and n2, a non-degenerate refracted line, and a reflection computed without raising; a raising reflection makes the whole step raise |
| Scene.Plane.RefractBend | main.py:415-432 | an Ok bend's line is calc_crossing_line (as written) at the Snell angle, and its sense is calc_direction's with get_through true; outside the vertical branch the line passes through the collision; after a successful reflection the step raises exactly when the angle or n2 is 0, or the refracted line raises or is 0 = 0 |
| Scene.Plane.RefractAt | main.py:401-432 | the statements compute Refract |
| Scene.Plane.Trace | main.py:373-465 | nothing is drawn beyond depth 5; at most 6 - depth segments; the drawn segments form one path that leaves the origin: the last-drawn segment starts at the origin, each segment ends where the one drawn before it starts, and only the first-drawn segment may be blue |
| Scene.Plane.TraceFromHit | main.py:401-433 | once a collision is chosen below the cap, the segments drawn are the trace of the bent ray followed by the red segment from the origin to the collision: never empty, at most 6 - depth segments, and one path whose last-drawn segment starts at the origin |
| Scene.Plane.TraceEndsAtHit | main.py:401-465 | below the cap, the last segment drawn is red exactly when a collision was found, and it ends at that collision |
| Scene.Plane.TraceStopsAtNearest | main.py:377-399 | a red last segment ends at a candidate that is ahead of the origin by eps and no farther than any other candidate ahead |
| Scene.Plane.TraceMissesAll | main.py:435-454 | a trace not ending in red had no candidate ahead; it is empty or one blue segment from the origin to a border crossing not behind it |
| Scene.Plane.CastRay | main.py:373-465 | the method draws exactly Trace, and its ghost counter equals CallCount, the number of cast_ray invocations the call makes |
| Scene.Plane.CallCountBounded | main.py:373-433 | one invocation beyond the cap; at least one, and at most 7 - depth invocations in all, so at most 7 from depth 0 |
| Scene.Plane.CallCountFromHitBounded | main.py:401-433 | after a collision at depth, at most 6 - depth further invocations |
| Scene.Plane.CallCountCoversSegments | main.py:373-465 | a trace that does not raise costs at least one invocation per segment drawn |
| Scene.Plane.CallCountFromHitCoversSegments | main.py:401-433 | after a collision, the invocations cover every segment drawn besides the red one |
| Scene.Plane.CastFromHit | main.py:401-433 | the statements after the collision is chosen draw exactly TraceFromHit, and its ghost counter equals CallCountFromHit |
| RaySource.Line.constructor | main.py:54-64 | the endpoints (10, pry(100)) and (50, pry(100)), the coefficients calc_line gives them, and pos_dir true |
| RaySource.Line.CalcLine | main.py:66-80 | the endpoints are unchanged; (a, b, c) is the line through them; pos_dir is v2.x > v1.x for a non-vertical line and v2.y > v1.y for a vertical one |
| RaySource.PosDirPointsAwayFromV1 | main.py:66-80 | a ray from v2 in the pos_dir sense keeps, of the points v1 + t(v2 - v1), exactly those with t >= 1 |

## Left out

- Drawing is not modelled, and neither are the Point drag handlers, keyboard input, the frame loop and the prints. The drawing covers all canvas calls, the dashed debug line at main.py:408-413, and the oval and text at a collision. Segments are in scene coordinates; the `pry` flip applied when drawing is left out.
- The library functions `sin`, `cos`, `tan`, `asin`, `atan`, `sqrt` and `pi` are uninterpreted. Their values, Snell's law and total internal reflection are therefore not modelled.
- Floating-point rounding is not modelled: reals are exact. Results that hold only up to rounding in Python hold exactly here.
- Scene.RefractionAngle: the ValueError that `asin` raises outside [-1, 1] (total internal reflection) is not modelled, because `asin` is an uninterpreted total function.
- Elements.Lens.constructor: the ValueError of `asin` for a lens thinner than its radii allow is not modelled, for the same reason. A zero radius (ZeroDivisionError) is excluded by its requires.
- Elements.Polygon.constructor: the requires exclude the inputs where Python divides by a zero tangent. The model does not return an error for them.
- Scene.Plane.constructor: it requires tan(pi/3) != 0, the prism's precondition with the library abstract. The window resolution is a parameter, and Tk and the canvas are left out.
- `Plane.add_obj` is a no-op in the source, and `obj_list` never changes after construction, so `objList` is a constant.
- Scene.Plane.CastRay: `min_dist = inf` is represented by the absence of a collision. Distances are values of the uninterpreted `sqrt`, so no bound on them is claimed.
- The `is not None` tests on the results of `calc_crossing_line` always pass, because the function never returns None. The model has no branch for them.
- The reflected ray's recursive `cast_ray` call is commented out in the source (main.py:415). Only the reflection's computation, which can raise, is modelled.
- Scene.Plane.Trace: at the depth cap the source prints and returns None. The model returns no segments.
- LineAlgebra.QuarterTurn: for a slanted line with c == 0 the branch at main.py:571-575 keeps c and so returns 0 = 0, not a line. Its pass-through and perpendicularity clauses then hold vacuously. The model keeps the source's behaviour, states the degenerate case in the contract, and `Scene.ReflectionThroughOriginRaises` shows the trace raises there.
- Geometry.SquaredDist: the contract does not say the value is positive for distinct points. In the source's floating point that fails, since the squares of tiny differences underflow to 0.0.
- LineAlgebra.CalcIntersectionCircle: only facts about the probe-line side are proved. The roots are not shown to lie on the circle, because `sqrt` is uninterpreted.

## Findings

`cast_ray`'s model (`Scene.Reflection`, `Scene.Plane.Refract`, `Scene.Plane.RefractAt`, `Scene.Plane.Trace`, `Scene.Plane.CastRay`) calls the function as written, so it follows the program, including the line that misses the collision. The corrected function is stated and proved beside it.

| source | as written | input that shows it | evidently intended | confidence | as-written member | corrected member |
|---|---|---|---|---|---|---|
| main.py:559-563 | when the turned line is vertical, `calc_crossing_line` sets `c2 = point.x`, giving the line x = -point.x | the line x + t*y - 1 = 0 with t = tan(pi/4) as the library computes it (0.9999999999999999 in IEEE doubles), point (1, 0), angle pi/4: (a/b)*tan is exactly 1, so the vertical branch gives x + 1 = 0, which misses (1, 0); the line x + y - 1 = 0 reaches that branch only with an exact tangent of 1 | `c2 = -point.x`, the vertical line through the point, as in the other branches | not executed | LineAlgebra.CalcCrossingLineAsWritten, LineAlgebra.VerticalBranchCounterexample | LineAlgebra.CalcCrossingLine, LineAlgebra.VerticalBranchHitsPoint |
