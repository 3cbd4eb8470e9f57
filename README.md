# SVG polygon collision and path helpers, in Dafny

This project models two C# source files of the SVG library and proves properties of the model.

**`Source/SvgCollision.cs` — the collision engine.**

- `checkForCollision` walks an element collection against itself. Its recursive helper `iterate` pairs the visual elements. It skips pairs where both are the same element, or where the inner element is an ancestor of the outer one (`isParent`). A minimum-area threshold stops the inner loop with a `break`. The pair is then tested in one of three modes. A record is kept when the shapes intersect now or will intersect after moving by the velocity.
- The modes are:
  - the brute-force segment test (`LineIntersection.PolygonCollision`, with `DoLinesIntersect` and `LineIntersectionPoint`);
  - the separating-axis test (`SeparatingAxisTheorem`, over `Polygon` and `Vector`);
  - a mixed mode that adds the segment test and crossing-number ray casting (`RayCasting`, `IsPointInPolygon`) when the separating-axis test reports an overlap.

**`Source/SvgExtentions.cs` — helpers.**

- `PathArea` computes the shoelace area.
- `StringToPointsList` turns path-data text into absolute points. It handles leading, embedded and trailing command letters, and lower-case (relative) mode.
- `ApplyRecursive` is a pre-order visit that stops below a document.
- `HasNonEmptyCustomAttribute` is a map lookup.

**How the model represents the source.**

- Arithmetic: `float` is modelled as `real`.
- The element tree is an arena, a sequence of `Scene.Node`. An index is an element's reference identity.
- The library supplies an element's flattened `Path.PathPoints` and `PathOuterArea.Value`. The model takes them as fields of the node.
- Exceptions become `Result.Throws`. `null`, NaN and infinity become `Option.None`.
- Stateful code keeps its form:
  - `Polygon` is a class with `points` and `edges` sequences;
  - the walk appends to the `results` field of a `CollisionWalk` object, which stands for the static fields;
  - the loops are `while` loops with invariants;
  - `StringToPointsList` re-splits an `array<string>` in place.
- Each method is proved equal to a specification function. The properties are lemmas about those functions.

Modules, one file each:

- `Wrappers` (wrappers.dfy)
- `Geometry` (geometry.dfy — `Vector`)
- `Polygons` (polygon.dfy)
- `CollisionResults` (results.dfy)
- `SeparatingAxis` (sat.dfy)
- `LineIntersection` (lines.dfy)
- `Scene` (scene.dfy — element tree, `isParent`, `ApplyRecursive`, custom attributes)
- `Collision` (collision.dfy — `checkForCollision`, `iterate`)
- `WalkFacts` and `PairFacts` (walk_facts.dfy, pair_facts.dfy — properties of the walk)
- `Area` (area.dfy — `PathArea`)
- `PathTokens` (tokens.dfy — the string preparation of `StringToPointsList`)
- `PointsList` (points_list.dfy — the scan of `StringToPointsList`)

Where the code's own comments and the code differ, the model follows the code:

- The summary of `RayCasting` (`Source/SvgCollision.cs:262-264`) speaks of polygon 2 crossing the bounds of polygon 1. The code tests the vertices of `ptsA`, the *outer* element, against the polygon `ptsB`, the inner element.
- The comment in the collinear branch of `DoLinesIntersect` (`Source/SvgCollision.cs:244`) says the segments intersect if they have any overlap. The code tests only whether `ps2` lies strictly between the two ends of the first segment, in x or in y. `CollinearOverlapMissed` shows a collinear overlap that this test misses.

Behaviour of the code worth knowing:

- Group elements are paired as well. The only element test is "is a visual element"; there is no leaf test.
- `isParent(innerElement, outerElement)` excludes only a pair whose inner element is an ancestor of the outer element. The converse pair is tested.
- Two polygons without vertices run no axis. Both flags stay set, so the separating-axis test reports them as intersecting.
- A mode letter inside or after a number (`"10z"`) sets the mode before that number is read. So the mode applies to that number.
- An entry made only of white space (from `"1 \n 2"`) makes the scan throw.

In `IsPointInPolygon`, the division at `Source/SvgCollision.cs:301` is reached only for an edge that straddles the point's height. The ends of such an edge differ in Y, so the denominator is never zero. `LineIntersection.Intercept` requires exactly that, and the verifier checks it at its one use.

## Model

All paths are in `Source/`.

| member | source | states |
|---|---|---|
| Geometry.Equals | Source/SvgCollision.cs:610-635 | Vector equality (`Equals`, `==`) holds exactly when the two vectors are the same value |
| Geometry.VectorLaws | Source/SvgCollision.cs:560-598 | The operator algebra the collision code relies on: subtracting then adding `b` restores `a`; a perpendicular is orthogonal to its edge; the cross product is antisymmetric. The dot-product laws (symmetry, additivity, oddness, scaling) are the helper lemmas `DotCommutes`, `DotAdd`, `DotNeg` and `DotScaled` beside it |
| Geometry.Normalize | Source/SvgCollision.cs:546-551 | `Vector.Normalize`: the vector divided by its magnitude, written as a product with an abstract positive reciprocal `recip`; undefined (0/0, NaN) for the zero vector. `NormalizedSeparates` and `FlagsIgnoreScale` state that the separating-axis flags do not depend on `recip` |
| Geometry.EdgesOf | Source/SvgCollision.cs:445-463 | A polygon has exactly one edge per vertex, so the separating-axis loop examines one axis per vertex of A and of B |
| Geometry.EdgesTranslate | Source/SvgCollision.cs:445-463 | Moving all vertices by one vector leaves the edge list unchanged |
| Geometry.TranslateInverse | Source/SvgCollision.cs:496-503 | Offsetting by `v` and then by `-v` restores the vertices |
| Geometry.Mean | Source/SvgCollision.cs:475-489 | The center is defined exactly when the polygon has a vertex; for none it is `0/0` |
| Geometry.MeanTranslate | Source/SvgCollision.cs:475-489 | The center of an offset polygon is the offset center |
| Polygons.Polygon.constructor | Source/SvgCollision.cs:442-443 | A new polygon has no points and no edges |
| Polygons.Polygon.BuildEdges | Source/SvgCollision.cs:445-463 | The edges become the wrapping edge list of the points, and the points are not changed |
| Polygons.Polygon.Center | Source/SvgCollision.cs:475-489 | The loop's sums divided by the count are the vertex mean; the result is undefined exactly for an empty polygon |
| Polygons.Polygon.Offset | Source/SvgCollision.cs:496-503 | Every point moves by `(x, y)` in place; the edge list is left as it was |
| Polygons.Polygon.OffsetBy | Source/SvgCollision.cs:491-494 | The vector overload moves every point by `v` and leaves the edges alone |
| SeparatingAxis.IntervalDistance | Source/SvgCollision.cs:412-419 | For well-ordered intervals the distance is positive exactly when the intervals are disjoint |
| SeparatingAxis.ProjectionBounds | Source/SvgCollision.cs:421-436 | For a non-empty polygon, min ≤ every vertex projection ≤ max, and both bounds are attained by some vertex |
| SeparatingAxis.ProjectPolygon | Source/SvgCollision.cs:421-436 | Throws exactly when the polygon has no vertex (`Points[0]`); otherwise returns the least and greatest projection |
| SeparatingAxis.GapSeparates | Source/SvgCollision.cs:363-369 | A positive static gap on an axis means exactly that one polygon projects strictly on one side of the other |
| SeparatingAxis.SweptBounds | Source/SvgCollision.cs:372-381 | After `minA += p` (for negative `p`) or `maxA += p`, the interval is exactly the projection of A at its start and end positions |
| SeparatingAxis.SweptGapSeparates | Source/SvgCollision.cs:372-384 | A positive swept gap means exactly that the axis separates B from A's start and end positions together |
| SeparatingAxis.AxisGaps | Source/SvgCollision.cs:363-384 | The two gaps of one axis; throws exactly when a polygon has no vertex |
| SeparatingAxis.ProbeEdge | Source/SvgCollision.cs:355-398 | One pass of the loop body gives the probe of the edge: undefined for a zero-length edge (NaN axis), else its two gaps, its depth and its oriented axis |
| SeparatingAxis.ProbeOfEdge | Source/SvgCollision.cs:349-354 | Loop index `k` takes edge `k` of A, then the edges of B |
| SeparatingAxis.ProbeMeaning | Source/SvgCollision.cs:355-398 | A probe is defined exactly when the normalised axis is. Its static (swept) gap is positive exactly when the axis separates A (swept A) from B. Its depth is the absolute swept distance, and its axis is turned towards A's center |
| SeparatingAxis.RunFlags | Source/SvgCollision.cs:339-387 | Both flags start set and are only cleared: after the loop, a flag is set exactly when no remaining axis cleared it. Leaving early once both are false loses nothing |
| SeparatingAxis.BestMinimal | Source/SvgCollision.cs:389-399 | The tracked axis is the first one of least depth, and there is none exactly when no axis was defined |
| SeparatingAxis.RunTracks | Source/SvgCollision.cs:387-399 | While `WillIntersect` holds, the loop keeps tracking the first probe of least depth to the end |
| SeparatingAxis.SatFaults | Source/SvgCollision.cs:421-423 | The test throws exactly when some axis is examined while one polygon has no vertex |
| SeparatingAxis.SatNoAxes | Source/SvgCollision.cs:339-405 | Two polygons without edges: both flags stay true and the translation vector is `0 · ∞` (NaN) |
| SeparatingAxis.SatFlags | Source/SvgCollision.cs:336-405 | With vertices on both sides: `IsIntersecting` holds exactly when no defined edge normal separates A from B, and `WillIntersect` exactly when none separates the swept A from B; the line fields stay at their defaults |
| SeparatingAxis.RunTranslation | Source/SvgCollision.cs:389-405 | The vector is left at zero unless `WillIntersect`; otherwise it is undefined exactly when no axis was defined, and else it is the oriented axis of the first least-depth probe scaled by that depth |
| SeparatingAxis.SatTranslation | Source/SvgCollision.cs:389-405 | `RunTranslation` for the probes of two polygons that have vertices |
| SeparatingAxis.RunFaces | Source/SvgCollision.cs:396-405 | If every defined axis faces a direction `d`, so does the translation vector |
| SeparatingAxis.ProbesFaceA | Source/SvgCollision.cs:396-398 | Every stored axis satisfies `dot(CenterA − CenterB, axis) ≥ 0` |
| SeparatingAxis.SatTranslationFacesA | Source/SvgCollision.cs:396-405 | The minimum translation vector never points from A's center towards B's |
| SeparatingAxis.SweptSeparationStatic | Source/SvgCollision.cs:372-384 | An axis that separates the swept A from B also separates A from B |
| SeparatingAxis.IntersectingImpliesWillIntersect | Source/SvgCollision.cs:363-384 | `IsIntersecting` implies `WillIntersect`, because the swept interval contains the static one |
| SeparatingAxis.ZeroVelocityFlagsAgree | Source/SvgCollision.cs:372-384 | With zero velocity `maxA += 0` changes nothing, so `WillIntersect == IsIntersecting` |
| SeparatingAxis.ScaledAxisSeparates | Source/SvgCollision.cs:546-551 | Rescaling an axis by any non-zero factor does not change whether it separates |
| SeparatingAxis.NormalizedSeparates | Source/SvgCollision.cs:357-358 | The normalised perpendicular separates exactly when the raw perpendicular does |
| SeparatingAxis.NoSeparationIgnoresScale | Source/SvgCollision.cs:546-551 | "No axis separates" does not depend on which positive magnitude the normalisation divides by |
| SeparatingAxis.FlagsIgnoreScale | Source/SvgCollision.cs:336-405 | Whether the test throws, and both flags, are the same for any two positive magnitude functions |
| SeparatingAxis.SatCollision | Source/SvgCollision.cs:336-408 | The instance `PolygonCollision` as a function of the vertex and edge lists: no edges gives the untouched start state, an empty polygon with some edge throws at `Points[0]`, otherwise the loop over the probes. Its meaning is stated by `SatFlags`, `SatTranslation`, `SatFaults` and `SatNoAxes` |
| SeparatingAxis.SatPolygonCollision | Source/SvgCollision.cs:314-334 | The static entry point: both vertex arrays with their wrapping edges, handed to `SatCollision` |
| SeparatingAxis.CollidePolygons | Source/SvgCollision.cs:336-408 | The instance loop over A's then B's edges returns the specified result, or throws exactly as specified |
| SeparatingAxis.PolygonCollision | Source/SvgCollision.cs:314-334 | Copying the arrays into polygons and building their edges, then running the test, gives the specified result |
| LineIntersection.DoLinesIntersect | Source/SvgCollision.cs:232-258 | The segment test itself: the sign-change test on `ps2` when `CmPxr == 0`, false for parallel lines otherwise, else `t` and `u` in [0, 1]. `DoLinesIntersectSound`, `DoLinesIntersectExact`, `ParallelSegmentsApart` and `CollinearBranch` state what it decides |
| LineIntersection.DoLinesIntersectSound | Source/SvgCollision.cs:232-258 | Every intersection the test reports is real: the two closed segments share a point |
| LineIntersection.DoLinesIntersectExact | Source/SvgCollision.cs:232-258 | Outside the collinear branch (`CmPxr ≠ 0`), the test answers true exactly when the closed segments meet |
| LineIntersection.ParallelSegmentsApart | Source/SvgCollision.cs:250-251 | Parallel segments with `ps2` off the first line share no point, so the `false` there is right |
| LineIntersection.CrossingTest | Source/SvgCollision.cs:253-257 | With `CmPxr ≠ 0` and `rxs ≠ 0`, the result is true exactly when `t = CmPxs/rxs` and `u = CmPxr/rxs` both lie in [0, 1] |
| LineIntersection.CrossingMeet | Source/SvgCollision.cs:250-257 | With a non-zero determinant, the segments meet exactly when Cramer's parameters lie in [0, 1] |
| LineIntersection.CollinearBranch | Source/SvgCollision.cs:242-248 | When `CmPxr == 0`, the answer is only the sign-change test of `ps2` against the ends of the first segment, in X or Y |
| LineIntersection.DoLinesIntersectCollinear | Source/SvgCollision.cs:242-248 | A second segment starting strictly inside the first is reported |
| LineIntersection.CollinearOverlapMissed | Source/SvgCollision.cs:242-248 | Collinear segments whose overlap does not contain `ps2` strictly inside the first segment share a point but are not reported |
| LineIntersection.SquareDiagonalsIntersect | Source/SvgCollision.cs:232-258 | The diagonals of the square with corners (0,0) and (k,k) are reported, e.g. (0,0)-(10,10) against (0,10)-(10,0) |
| LineIntersection.LineIntersectionPoint | Source/SvgCollision.cs:200-223 | The flag is false exactly when `delta == 0`; the point is defined exactly when the flag is true |
| LineIntersection.LineEquation | Source/SvgCollision.cs:203-211 | A point lies on the line through two points exactly when it satisfies that line's `A·x + B·y = C` |
| LineIntersection.IntersectionOnBothLines | Source/SvgCollision.cs:200-223 | A defined crossing point satisfies both line equations |
| LineIntersection.IntersectionUnique | Source/SvgCollision.cs:200-223 | A defined crossing point is the only point the two lines have in common |
| LineIntersection.SquareDiagonalsCrossAtCenter | Source/SvgCollision.cs:200-223 | The square's diagonals cross at its center, (5,5) for k = 10 |
| LineIntersection.PolygonCollision | Source/SvgCollision.cs:158-193 | The list holds the specified crossing points in loop order; `IsIntersecting == OnPath ==` (the list is non-empty); `WillIntersect`, the vector, the names and the ray-casting class stay at their defaults |
| LineIntersection.NoHitsFromOrigin | Source/SvgCollision.cs:167 | A segment whose start vertex is at the origin is never tested (`IsEmpty`) |
| LineIntersection.HitsMembers | Source/SvgCollision.cs:165-190 | A point is in the list exactly when some pair of consecutive segments `A[i-1]-A[i]`, `B[j-1]-B[j]` is reported, so the closing last-to-first edge is never tested |
| LineIntersection.HitsAreCrossings | Source/SvgCollision.cs:173-182 | Every reported pair of segments does meet, and a defined reported point lies on both lines |
| LineIntersection.HitsCount | Source/SvgCollision.cs:165-190 | At most (a − 1)·(b − 1) points are appended for a and b vertices, and none when either side has fewer than two vertices |
| LineIntersection.OriginStartsNoSegment | Source/SvgCollision.cs:167-171 | The diagonal pair starting at (0,0) yields no point, whatever it crosses |
| LineIntersection.IsPointInPolygon | Source/SvgCollision.cs:292-307 | The count is the number of edges the rightward ray crosses, and the flag is true exactly when that count is odd |
| LineIntersection.OutsideVerticalRange | Source/SvgCollision.cs:299-300 | A point at or above every vertex, or below every vertex, crosses no edge |
| LineIntersection.InterceptBetween | Source/SvgCollision.cs:301 | The ray meets a straddling edge between the X coordinates of its ends |
| LineIntersection.RightOfAllVertices | Source/SvgCollision.cs:299-301 | A point at or to the right of every vertex crosses no edge |
| LineIntersection.CrossingsTranslate | Source/SvgCollision.cs:292-307 | Moving the polygon and the point together keeps the crossing count |
| LineIntersection.RayClass | Source/SvgCollision.cs:281-290 | The classification `RayCasting` returns: the even and odd flags over the vertices of `ptsA` reduced to outside, inside or mixed. `RayClassMeaning` states it without the flags |
| LineIntersection.RayClassMeaning | Source/SvgCollision.cs:281-290 | Outside exactly when there is a vertex and every count is even; inside exactly when there is a vertex and every count is odd; mixed otherwise, including for no vertices |
| LineIntersection.RayCastingWithCount | Source/SvgCollision.cs:276-290 | Returns that classification, and `maxCrossings` is the greatest count (0 when there is none) |
| LineIntersection.RayCasting | Source/SvgCollision.cs:271-275 | The overload without the count returns the same classification |
| Scene.IsAncestor | Source/SvgCollision.cs:135-146 | The relation `isParent` decides: `p` is on the parent chain of `c`, strictly above it. `AncestorBelow` and `AncestorTransitive` state its properties |
| Scene.IsParent | Source/SvgCollision.cs:135-146 | The parent-chain walk answers true exactly when `parent` is a strict ancestor of `child` |
| Scene.AncestorBelow | Source/SvgCollision.cs:135-146 | Ancestors come earlier in the tree, so no element is its own ancestor and the walk ends |
| Scene.AncestorTransitive | Source/SvgCollision.cs:135-146 | An ancestor of an ancestor is an ancestor |
| Scene.ParentIsAncestor | Source/SvgCollision.cs:137-144 | A parent, and every ancestor of it, is an ancestor of the child |
| Scene.VisitOrder | Source/SvgExtentions.cs:56-65 | The sequence of elements `ApplyRecursive` applies the action to: `elem`, then each child's own visit in sibling order, and nothing below a document. `VisitPreOrder` and `VisitSiblingOrder` state the order, `VisitWithin` and `VisitComplete` which elements it holds |
| Scene.VisitStartsAtElement | Source/SvgExtentions.cs:56-58 | The action is applied to `elem` first |
| Scene.VisitStopsAtDocument | Source/SvgExtentions.cs:56-65 | On a document, only the document itself is visited |
| Scene.VisitWithin | Source/SvgExtentions.cs:56-65 | Only `elem` and its descendants are visited |
| Scene.VisitParentsFirst | Source/SvgExtentions.cs:56-65 | Every visited element other than `elem` has its parent visited earlier, and that parent is not a document |
| Scene.VisitPreOrder | Source/SvgExtentions.cs:56-65 | The visit is in pre-order: every visited element is followed directly by the whole of its own visit, so a subtree is finished before the next sibling is entered (a breadth-first order does not have this) |
| Scene.VisitSiblingOrder | Source/SvgExtentions.cs:59-64 | The children of a non-document are entered in sibling order: child 0's visit starts right after `elem`, and child `k + 1`'s visit starts right where child `k`'s visit ends |
| Scene.VisitComplete | Source/SvgExtentions.cs:56-65 | Every child of a visited element that is not a document is visited |
| Scene.HasNonEmptyCustomAttribute | Source/SvgExtentions.cs:51-54 | The key is present and its value is neither `null` nor empty; `CustomAttributeSet` and `CustomAttributeAbsent` state how the answer follows the attribute map |
| Scene.CustomAttributeSet | Source/SvgExtentions.cs:51-54 | After setting `name` to `v`, the answer for `name` is "`v` is non-null and non-empty"; other names keep their answer |
| Scene.CustomAttributeAbsent | Source/SvgExtentions.cs:51-54 | A missing key gives false, and a true answer comes from a present, non-null, non-empty value |
| Collision.CollisionWalk.constructor | Source/SvgCollision.cs:64-70 | A fresh context holds the settings and an empty result list |
| Collision.TestPair | Source/SvgCollision.cs:101-119 | The `switch` on the mode: the line test alone, the separating-axis test alone, or the separating-axis test followed, only when it reports an overlap, by the line test's `OnPath` and points and the ray-casting class. `PairFacts.LineMode`, `SatMode` and `MixedMode` state each case |
| Collision.PairOutcomeOf | Source/SvgCollision.cs:84-128 | The body for one pair: skipped unless both are visual, distinct and the inner one is not an ancestor of the outer; `break` under a non-zero threshold; a fault leaves the default record; kept only when a flag is set, with the ID-or-`"-"` names. `PairFacts.StopsExactly`, `RecordedPair` and `FaultDropsPair` state it |
| Collision.CollisionWalk.TestElements | Source/SvgCollision.cs:84-128 | One pair: skip, `break`, or a record with the names, exactly as the specification of a pair says |
| Collision.CollisionWalk.Iterate | Source/SvgCollision.cs:75-133 | `iterate` appends exactly the records of the specified walk, in order |
| Collision.CollisionWalk.OuterElement | Source/SvgCollision.cs:77-131 | The outer body appends the walk below the outer element against the whole second collection, then the inner loop |
| Collision.CollisionWalk.InnerLoop | Source/SvgCollision.cs:80-131 | The inner `foreach` appends the specified records and stops at the first `break` |
| Collision.CollisionWalk.InnerElement | Source/SvgCollision.cs:82-130 | The inner body appends the walk below both elements, then the pair's record; it reports the `break` exactly when the pair stops the loop |
| Collision.CheckForCollision | Source/SvgCollision.cs:64-73 | The returned list is the walk of the collection against itself under the given settings |
| WalkFacts.WalkFound | Source/SvgCollision.cs:75-133 | Every record comes from a recorded pair of elements at or below the two collections; the outer element lies at least as deep as the inner one |
| WalkFacts.StopEndsRow | Source/SvgCollision.cs:89-92 | After a `break`, the rest of that inner loop records nothing more for that outer element |
| WalkFacts.FlatWalk | Source/SvgCollision.cs:77-82 | With childless outer elements and no `break`, the walk is the plain double loop, row by row |
| WalkFacts.NeverShallow | Source/SvgCollision.cs:75-133 | A pair whose outer element lies less deep below its collection than the inner one does below its collection is never recorded |
| WalkFacts.UnevenDescent | Source/SvgCollision.cs:79-82 | The descent is asymmetric: a leaf one level down, on the outer side, is never tested against a leaf two levels down, on the inner side |
| PairFacts.StopsExactly | Source/SvgCollision.cs:89-92 | The `break` happens exactly for a candidate pair with an area below a set threshold |
| PairFacts.RecordedPair | Source/SvgCollision.cs:84-127 | Only visual, distinct pairs without the inner element above the outer one, that pass the threshold and have a flag set, are recorded, named by ID or `"-"` |
| PairFacts.LineMode | Source/SvgCollision.cs:103-105 | Line mode records exactly the pairs with a crossing, with the line test's fields |
| PairFacts.SatMode | Source/SvgCollision.cs:106-108 | Separating-axis mode records exactly when no axis separates now or none separates after the move, with the flags saying which |
| PairFacts.FaultDropsPair | Source/SvgCollision.cs:86-123 | When exactly one polygon has no vertex, the test throws, `r` stays default, and the pair is dropped |
| PairFacts.MixedMode | Source/SvgCollision.cs:109-118 | Mixed mode records the same pairs, flags and vector as separating-axis mode. The ray-casting class, `OnPath` and points are filled only when the shapes intersect now |
| PairFacts.NoThresholdNoStop | Source/SvgCollision.cs:89-93 | With a threshold of 0 the inner loop never stops early |
| PairFacts.ListEntry | Source/SvgCollision.cs:123-127 | Each entry of the returned list is the record of a recorded pair of elements at or below the collection |
| PairFacts.FlatCollection | Source/SvgCollision.cs:64-133 | For childless elements and no threshold, the list is every recorded ordered pair, row by row |
| Area.AreaOf | Source/SvgExtentions.cs:79-80 | The area is never negative |
| Area.PathArea | Source/SvgExtentions.cs:66-81 | The loop with `j = (i+1) % n` computes half the cyclic shoelace sum, made non-negative |
| Area.ShoelaceIsChain | Source/SvgExtentions.cs:71-77 | The cyclic sum is the open chain plus the closing term from the last vertex to the first |
| Area.DegenerateArea | Source/SvgExtentions.cs:66-81 | Empty, one-point and two-point arrays have area 0 |
| Area.RotationInvariant | Source/SvgExtentions.cs:66-81 | Starting at the second vertex keeps the signed sum and the area |
| Area.RotationsInvariant | Source/SvgExtentions.cs:66-81 | Any cyclic rotation of the vertex order keeps the area |
| Area.ReversalInvariant | Source/SvgExtentions.cs:66-81 | Reversing the vertex order negates the signed sum and keeps the area |
| Area.TranslationInvariant | Source/SvgExtentions.cs:66-81 | Moving every vertex by the same vector keeps the signed sum and the area |
| Area.Quadrilateral | Source/SvgExtentions.cs:71-77 | For four vertices, the sum is the four cross products, including the closing one |
| Area.UnitSquare | Source/SvgExtentions.cs:66-81 | The counter-clockwise unit square has signed sum 2 and area 1 |
| PathTokens.TrimStart | Source/SvgExtentions.cs:119 | Drops exactly the leading white space |
| PathTokens.TrimEnd | Source/SvgExtentions.cs:119 | Drops exactly the trailing white space |
| PathTokens.TrimSlice | Source/SvgExtentions.cs:119 | The trimmed value is no longer than the value, uses only its characters, and has no white space at either end |
| PathTokens.TrimKeeps | Source/SvgExtentions.cs:130 | Trimming a value without white space at its ends changes nothing |
| PathTokens.TrimBlank | Source/SvgExtentions.cs:119 | A value made only of white space trims to the empty string |
| PathTokens.SpacesToCommas | Source/SvgExtentions.cs:120 | Same length, no space left, every other character kept in place |
| PathTokens.CommaBeforeDash | Source/SvgExtentions.cs:121 | Afterwards, every minus sign stands right after a comma, and no space is introduced |
| PathTokens.StripConcat | Source/SvgExtentions.cs:120-123 | The non-separator content of a concatenation is the concatenation of the contents |
| PathTokens.SpacesKeepContent | Source/SvgExtentions.cs:120 | Replacing spaces keeps the characters that are not separators |
| PathTokens.DashesKeepContent | Source/SvgExtentions.cs:121 | Inserting commas keeps the characters that are not separators |
| PathTokens.SplitFrom | Source/SvgExtentions.cs:122-123 | `RemoveEmptyEntries`: every entry is non-empty and free of commas |
| PathTokens.SplitContent | Source/SvgExtentions.cs:122-123 | The entries, run together, are the text without its commas |
| PathTokens.SplitShape | Source/SvgExtentions.cs:121-123 | No entry holds a space, and a minus sign can only open an entry |
| PathTokens.PreprocessTokens | Source/SvgExtentions.cs:119-123 | Each token is non-empty, holds no comma or space, and has a minus sign at most at its start; together they are the trimmed value without its spaces and commas |
| PathTokens.BlankValue | Source/SvgExtentions.cs:119-123 | A blank value gives no tokens |
| PathTokens.MinusSplits | Source/SvgExtentions.cs:119-123 | `"10-5"` gives the tokens `"10"` and `"-5"` |
| PointsList.Number | Source/SvgExtentions.cs:131-165 | A number toggles `isX`. In absolute mode it replaces the current coordinate, in relative mode it is added to it. A point is appended exactly when a y coordinate is read |
| PointsList.FirstLetter | Source/SvgExtentions.cs:178-181 | None exactly when the token has no letter; otherwise the index of a letter with no letter before it |
| PointsList.TokenStep | Source/SvgExtentions.cs:129-199 | Visiting one entry either moves on, or re-splits it into a strictly shorter entry followed by the rest; an entry without letters never re-splits |
| PointsList.Letters | Source/SvgExtentions.cs:178-199 | The letter search leaves the array alone or inserts one entry no longer than the token, and strictly shorter when no letter leads |
| PointsList.Resize | Source/SvgExtentions.cs:189 | A fresh array one longer, holding the old entries in front |
| PointsList.ShiftUp | Source/SvgExtentions.cs:190-193 | Entries up to `i` are kept; every later one takes its predecessor's old value |
| PointsList.SplitEntry | Source/SvgExtentions.cs:189-195 | The array grows by one: entry `i` keeps the part before the letter, the part from the letter on follows it, and the rest moves up |
| PointsList.StepParsed | Source/SvgExtentions.cs:130-166 | An entry that parses after trimming is read as one number |
| PointsList.StepEmpty | Source/SvgExtentions.cs:169 | An entry that trims to nothing makes `char.IsLetter(s, 0)` throw |
| PointsList.StepLead | Source/SvgExtentions.cs:169-177 | A leading letter sets the case mode and is dropped; the rest is restarted if it parses, else searched for letters |
| PointsList.StepNoLead | Source/SvgExtentions.cs:178-199 | An entry that neither parses nor starts with a letter goes straight to the letter search |
| PointsList.LettersFound | Source/SvgExtentions.cs:180-197 | At the first letter, the case is set; a last letter truncates the entry, an inner letter splits it; then the scan restarts |
| PointsList.LettersNone | Source/SvgExtentions.cs:178-199 | An entry without letters that does not parse is skipped |
| PointsList.TokensUnfold | Source/SvgExtentions.cs:127-202 | The scan is the visit of the first entry followed by the scan of what the visit left; every visit lowers the array's weight, so the `goto` loop ends |
| PointsList.FindLetter | Source/SvgExtentions.cs:178-181 | The `for n` loop finds the first letter, or the length when there is none |
| PointsList.CutAtLetter | Source/SvgExtentions.cs:180-197 | The in-place truncate or split leaves the array and mode the letter search specifies; a restart is on a strictly shorter entry |
| PointsList.VisitOnce | Source/SvgExtentions.cs:129-199 | One pass from `doAgain`: a fault is a throw of the visit; a finished pass leaves the specified array tail and state; a restart keeps the visit's result and shortens the entry |
| PointsList.VisitEntry | Source/SvgExtentions.cs:129-199 | The repeated passes over entry `i` throw exactly when its visit throws, and otherwise leave the visit's array tail and state |
| PointsList.Tokens | Source/SvgExtentions.cs:127-202 | The `for` loop over the token array with its `goto doAgain` restarts: each entry is one `TokenStep`, which may re-split it into a shorter entry that is visited next; the result is the final scan state, or a fault. `TokensUnfold` states the unfolding and that the restarts end |
| PointsList.PointsOf | Source/SvgExtentions.cs:107-203 | What `StringToPointsList` returns: the point list of the scan over the prepared tokens, from `isX`, absolute mode and position (0, 0), or a fault. `NumbersOnly`, `RelativeRun`, `BlankAttribute` and the letter lemmas state it on each kind of input |
| PointsList.StringToPointsList | Source/SvgExtentions.cs:107-204 | The method returns the specified points, or throws exactly when the specification does |
| PointsList.NumericEntries | Source/SvgExtentions.cs:127-166 | Entries that all parse are read one by one as numbers, without re-splitting |
| PointsList.AbsoluteRun | Source/SvgExtentions.cs:149-165 | In absolute mode, starting on x, the points are the consecutive pairs of values |
| PointsList.RelativeRun | Source/SvgExtentions.cs:138-165 | In relative mode, each pair of values moves the position to the next point |
| PointsList.NumbersOnly | Source/SvgExtentions.cs:107-204 | An attribute of numbers only gives the points they pair into, in order; the starting state is absolute mode at (0,0) on x |
| PointsList.BlankAttribute | Source/SvgExtentions.cs:119-127 | A blank attribute gives no points |
| PointsList.LeadingLetter | Source/SvgExtentions.cs:169-176 | `"M10"` sets the mode from the letter's case and reads 10 |
| PointsList.TrailingLetter | Source/SvgExtentions.cs:183-186 | `"10z"` sets the mode from the trailing letter's case and then reads 10 under it |
| PointsList.EmbeddedLetter | Source/SvgExtentions.cs:187-197 | `"10L20"` reads 10 under the letter's mode and puts `"L20"` next in the array |
| PointsList.CommandLetter | Source/SvgExtentions.cs:169-178 | A lone letter only sets the mode |
| PointsList.TwoLetters | Source/SvgExtentions.cs:169-186 | `"ab"` restarts on an empty entry, and `char.IsLetter` throws |
| PointsList.BlankEntry | Source/SvgExtentions.cs:130-169 | An entry of white space only throws |
| PointsList.BlankEntryThrows | Source/SvgExtentions.cs:127-169 | A blank entry after numeric ones makes the whole call throw, whatever follows |

## Left out

- Floating point is modelled as exact real arithmetic: rounding, overflow, NaN and infinity are not. NaN and infinite results are `None` where the code produces them: a zero-length edge's axis, `0 · ∞`, and the crossing point of parallel lines.
- `Vector.Magnitude` and its square root are not computed. Normalisation divides by an abstract reciprocal magnitude `recip`, a parameter. The flags are proved independent of it (`FlagsIgnoreScale`). The translation vector's length is stated in terms of it.
- `Vector.GetNormalized`, `DistanceTo`, `FromPoint`, the `Point` and `PointF` conversions, the `int` and `double` products, `GetHashCode` and the `ToString` methods: square roots, rounding casts and formatting, which no modelled path uses.
- `PathLength`, `_PathLength` and `GetDistanceBetweenPoints`: square-root numerics.
- `GetXML` (both overloads) and `SetRectangle`: stream and XML I/O, and a field copy onto library types.
- `Path.Flatten`, `Path.PathPoints` and `PathOuterArea`: graphics-library code. Each element's vertices and area are given fields of `Scene.Node`, so the flattening of circles and ellipses is taken as already done.
- `float.TryParse`, `char.IsLetter` and `char.IsUpper`: library calls, given as the functions of a `PointsList.Lib` parameter. `TryParse` depends on the current culture; `IsLetter` and `IsUpper` are Unicode-category tests. The facts that need `TryParse("")` to fail take that as a hypothesis.
- `PointsList.TokenStep` and `PointsList.Letters`: a string is modelled as a sequence of Unicode code points, while .NET strings are UTF-16 code units. `char.IsLetter(s, 0)` and `char.IsUpper` (`Source/SvgExtentions.cs:169-182`) read a surrogate pair as one character, but `Substring(1)` and the cuts at `n` (lines 172, 185, 194-195) count code units. So a letter outside the Basic Multilingual Plane (such as U+1D400) is scanned differently: the code leaves a lone low surrogate behind where the model drops the whole letter, and the model's letter search and mode switch see one character where the code sees two units.
- `String.Trim` is modelled with the .NET white-space set. `Split` and `Replace` are written out.
- `PointsList.Resize`: the new slot holds `""`, not `null`. The shift that follows always overwrites it, so nothing observable differs.
- `PointsList.StringToPointsList`: the `goto doAgain` loop is written as `VisitEntry`, which repeats `VisitOnce` until a pass finishes, with `CutAtLetter` and `SplitEntry` for the in-place re-split; the control flow is the same.
- The static fields of `SvgCollision` are one `CollisionWalk` object per call. Re-entrancy and threads are not modelled.
- `ApplyRecursive`: the action's effects are not modelled. The model gives the order in which elements are visited (`Scene.VisitOrder`). An action that changes a child collection while its `foreach` runs (`Source/SvgExtentions.cs:60-63`) is not modelled; the children are a fixed sequence.
- The `Samples` WinForms application is UI code and is not part of this model.
