# Whimsy's geometry, pathfinding and data core in Dafny

Whimsy is a small point-and-click adventure engine. This project models the
part of it that is exact integer computation, and proves what that code
promises:

- **Geometry.** Integer points (`Points`), the edge iterator of a ring
  (`Edges`), rings with their doubled signed area, winding number, concave
  points and containment (`Rings`), and polygons: the union `Add`,
  `FloodFill`, `Contains` and the segment test `Intersects` (`Polygons`, with
  the intersection bookkeeping of `Add` in `Intersections`).
- **Pathfinding.** The passable region, its waypoints and their symmetric
  sightlines, and the A* search with its backtracking (`PathFinding`).
- **Smaller pieces.** Rectangles (`Rects`); the data-file line tokenizer and
  argument conversions (`DataFiles`); the shunting-yard expression evaluator
  and the `set` command (`VariableStore`); the interaction range test and
  state machine (`Interactions`); the sorted sprite list of a room (`Rooms`);
  Cohen–Sutherland clipping and the pen moves of drawing (`Canvases`); the
  avatar's facing choice (`Avatars`); and the converter from SVG path data
  (the relative `m`, `l`, `h` and `v` commands of section 8.3 of SVG 1.1) to
  mask vertices (`Svg`).
- **Helpers.** Truncating integer division as C++ does it (`Ints`) and
  decimal numerals (`Decimals`).

Value types (`Point`, `Rect`, a data-file token) are datatypes. Objects whose
fields the program updates in place (`Edge`, `Data`, `Variables`,
`Interaction`, `Room`, `Paths`, `Canvas`, `Avatar`, and the compound
assignments of `Point` and `Rect`) are classes. Their methods are proved
against specification functions, and the properties the program relies on
are proved as lemmas about those functions. In-place ring operations work on
an `array<Point>`, and `RemoveDoubles` compacts an `array` as the program
does.

Integers are unbounded. Areas are the exact doubled shoelace sum, not a
`float`. Path lengths come from an abstract non-negative function
`length: Point -> real` in place of `sqrt`.

## Model

| member | source | states |
|---|---|---|
| Points.Point.NonZero | desktop/Point.cpp:21-24 | `operator bool` holds exactly when the point is not (0, 0) |
| Points.Point.IsZero | desktop/Point.cpp:28-31 | `operator!` is exactly the negation of `operator bool` |
| Points.Point.Equals | desktop/Point.cpp:35-38 | coordinate-wise `==` is equality of the two points |
| Points.Point.NotEquals | desktop/Point.cpp:42-45 | `!=` is exactly the negation of `==` |
| Points.Point.Div | desktop/Point.cpp:111-114 | each coordinate is divided truncating toward zero: the remainder is smaller than the divisor and has the sign of the dividend |
| Points.Point.LengthSquared | desktop/Point.cpp:176-179 | the squared length is never negative and is 0 only for (0, 0) |
| Points.Point.DistanceSquared | desktop/Point.cpp:190-193 | the squared distance is never negative and is 0 only between equal points |
| Points.PlusMinus | desktop/Point.cpp:49-84 | adding then subtracting q gives p back, `p - p` is (0, 0), `-(-p) == p`, and `p - q == p + (-q)` |
| Points.ScaleDivide | desktop/Point.cpp:88-123 | for any nonzero k, multiplying by k and then dividing by k gives the point back |
| Points.CrossAntisymmetric | desktop/Point.cpp:162-165 | `a.Cross(b) == -b.Cross(a)` and `a.Cross(a) == 0` |
| Points.DotSymmetric | desktop/Point.cpp:155-158 | `a.Dot(b) == b.Dot(a)` |
| Points.DistanceSymmetric | desktop/Point.cpp:190-193 | the squared distance from a to b equals that from b to a |
| Points.CrossLinear | desktop/Point.cpp:162-165 | the cross product distributes over `+` and `-` in each argument |
| Points.ShiftCross | desktop/Point.cpp:162-165 | translating both ends by o changes their cross product by `(s - e).Cross(o)` |
| Points.NoOverflow | desktop/Point.cpp:155-165 | coordinates below 2^15 in magnitude keep `Dot` and `Cross` within 32-bit `int` |
| Points.PointVar.constructor | desktop/Point.cpp:13-16 | the new point holds the given coordinates |
| Points.PointVar.AddAssign | desktop/Point.cpp:56-61 | `+=` leaves the point equal to the old point plus p |
| Points.PointVar.SubAssign | desktop/Point.cpp:72-77 | `-=` leaves the point equal to the old point minus p |
| Points.PointVar.MulAssign | desktop/Point.cpp:95-100 | `*=` scales both coordinates of the old point |
| Points.PointVar.DivAssign | desktop/Point.cpp:118-123 | `/=` leaves the truncating quotient of the old point |
| Edges.Edge.constructor | desktop/Edge.cpp:11-14 | on a non-empty ring the first edge runs from the last vertex to the first, with order 0 |
| Edges.Edge.Next | desktop/Edge.cpp:19-26 | `++` moves to the next edge, which starts where the previous one ended, and adds that edge's squared length to the order |
| Edges.Edge.HasEdge | desktop/Edge.cpp:38-41 | `operator bool` holds exactly while fewer than `ring.size()` edges were passed |
| Edges.Edge.AtEnd | desktop/Edge.cpp:45-48 | `operator!` is exactly the negation of `operator bool` |
| Edges.Edge.Start | desktop/Edge.cpp:53-56 | the current edge starts at the vertex before the iterator's position, wrapping to the last one |
| Edges.Edge.End | desktop/Edge.cpp:60-63 | the current edge ends at the vertex at the iterator's position |
| Edges.Edge.Vector | desktop/Edge.cpp:68-71 | `Vector() == End() - Start()` while the iterator is valid |
| Edges.Edge.Order | desktop/Edge.cpp:77-80 | the order is the non-negative sum of the squared lengths of the edges passed so far |
| Edges.EdgesChain | desktop/Edge.cpp:19-26 | each edge starts where the previous one ends, and the first edge starts where the last one ends |
| Edges.OrderMonotone | desktop/Edge.cpp:19-26 | the order never decreases along the ring |
| Edges.OrderIsPathSum | desktop/Edge.cpp:19-26 | after k edges the order is the closing edge's squared length plus the squared lengths along the first k vertices |
| Edges.TotalOrder | desktop/Edge.cpp:19-26 | after the last edge the order is the sum of the squared lengths of all edges of the loop |
| Rings.Translate | desktop/Ring.cpp:15-44 | `+` and `-` move every vertex by the offset and keep the size |
| Rings.Scale | desktop/Ring.cpp:49-73 | `*` scales every vertex and keeps the size |
| Rings.Divide | desktop/Ring.cpp:77-82 | `/` divides every vertex, truncating, and keeps the size |
| Rings.TranslateBack | desktop/Ring.cpp:15-44 | translating by o and then by -o gives the ring back |
| Rings.ScaleThenDivide | desktop/Ring.cpp:49-91 | scaling by a nonzero k and then dividing by k gives the ring back |
| Rings.TranslateInPlace | desktop/Ring.cpp:24-29 | `+=` rewrites the array to the translated ring |
| Rings.SubtractInPlace | desktop/Ring.cpp:40-44 | `-=` rewrites the array to the ring translated by the negated offset |
| Rings.ScaleInPlace | desktop/Ring.cpp:58-63 | `*=` rewrites the array to the scaled ring |
| Rings.DivideInPlace | desktop/Ring.cpp:86-91 | `/=` rewrites the array to the divided ring |
| Rings.ReverseInPlace | desktop/Ring.cpp:134-137 | `Reverse` leaves the vertices in the opposite order |
| Rings.DoubledArea | desktop/Ring.cpp:106-121 | the loop returns twice the signed area, as a fan of triangles around the origin |
| Rings.AreaIsShoelace | desktop/Ring.cpp:106-121 | that doubled area equals the sum of `Start().Cross(End())` over all edges |
| Rings.ReverseNegatesArea | desktop/Ring.cpp:134-137 | reversing a ring negates its signed area, so a solid ring becomes a hole |
| Rings.TranslatePreservesArea | desktop/Ring.cpp:106-121 | translating a ring does not change its area: the reference vertex need not be inside |
| Rings.Winding | desktop/Ring.cpp:181-203 | the loop returns the winding number and the border count of the point: upward edges with positive cross add 1, downward edges with cross ≤ 0 subtract 1, and straddling edges with zero cross are border edges |
| Rings.WindingTranslate | desktop/Ring.cpp:96-100 | moving a ring and the point together changes neither the winding count nor containment |
| Rings.ContainsRing | desktop/Ring.cpp:166-174 | a ring contains another when it contains that ring's first vertex; when the vertex is on the border it must also have the larger area |
| Rings.ConcavePoints | desktop/Ring.cpp:143-160 | the loop returns the concave vertices found from the last vertex on, or the ring itself when it has fewer than 3 vertices |
| Rings.ConcavePointsBounds | desktop/Ring.cpp:143-160 | the concave points are never more than the ring's vertices, and each of them is a vertex of the ring |
| Rings.HexagonIsHole | desktop/test.cpp:13-21 | the test hexagon has doubled area -1200, so it is a hole |
| Rings.HexagonContainsInner | desktop/test.cpp:13-24 | the hexagon contains (0, 5), with winding -1 and no border edge |
| Rings.HexagonContainsLeftBorder | desktop/test.cpp:13-24 | the hexagon contains (-15, 5), which lies on one of its edges |
| Rings.HexagonContainsRightBorder | desktop/test.cpp:13-24 | the hexagon contains (15, 5), which lies on one of its edges |
| Polygons.TranslatePolygon | desktop/Polygon.cpp:100-128 | `+` and `-` translate every ring and keep the ring count, the ring sizes and their order |
| Polygons.ScalePolygon | desktop/Polygon.cpp:133-156 | `*` scales every ring and keeps the ring count, the sizes and the order |
| Polygons.DividePolygon | desktop/Polygon.cpp:160-165 | `/` divides every ring and keeps the ring count, the sizes and the order |
| Polygons.TranslatePolygonBack | desktop/Polygon.cpp:100-128 | translating by o and then by -o gives the polygon back |
| Polygons.ScalePolygonThenDivide | desktop/Polygon.cpp:133-174 | scaling by a nonzero k and then dividing by k gives the polygon back |
| Polygons.TranslatePolygonKeepsHoles | desktop/Polygon.cpp:100-114 | translation keeps every ring's area and whether it is a hole |
| Polygons.TranslateEach | desktop/Polygon.cpp:109-114 | `+=` rewrites the array of rings to the translated polygon |
| Polygons.ScaleEach | desktop/Polygon.cpp:142-147 | `*=` rewrites the array of rings to the scaled polygon |
| Polygons.DivideEach | desktop/Polygon.cpp:169-174 | `/=` rewrites the array of rings to the divided polygon |
| Polygons.Contains | desktop/Polygon.cpp:490-504 | the loop returns true when some ring has the point on its border, and otherwise when the summed winding is nonzero |
| Polygons.ContainsOneRing | desktop/Polygon.cpp:490-504 | the empty polygon contains nothing; a one-ring polygon contains the points the ring contains and the points on its border |
| Polygons.Intersects | desktop/Polygon.cpp:511-541 | the loop returns true exactly when some edge that is not parallel to the segment meets it at a point of the edge, ends included, that lies strictly between the segment's ends |
| Polygons.PointSegmentNeverIntersects | desktop/Polygon.cpp:511-541 | a segment of length 0 never intersects, and the empty polygon intersects no segment |
| Polygons.IntersectsSymmetric | desktop/Polygon.cpp:511-541 | swapping the two ends of the segment does not change the answer |
| Polygons.EdgeHits | desktop/Polygon.cpp:515-538 | one edge of a ring hits the segment exactly when the segment test says so |
| Polygons.SmallestAround | desktop/Polygon.cpp:441-448 | the chosen ring is a solid ring around the point with the smallest area, the first on ties; none is chosen exactly when no solid ring is around it |
| Polygons.Areas | desktop/Polygon.cpp:434-438 | every cell of the area array holds the doubled area of its ring |
| Polygons.KeptIndices | desktop/Polygon.cpp:457-484 | the kept ring indices are exactly the rings kept, in increasing order |
| Polygons.FindSmallest | desktop/Polygon.cpp:441-454 | the loop sets `keepCount` to 0 exactly when no solid ring is around the point, and otherwise finds the smallest one |
| Polygons.IsNested | desktop/Polygon.cpp:464-472 | a hole counts as nested when a ring of smaller area contains its first vertex |
| Polygons.MarkHoles | desktop/Polygon.cpp:457-475 | `keep` ends up marking the smallest solid ring and the holes inside it that are not nested in another hole |
| Polygons.Collect | desktop/Polygon.cpp:476-484 | the kept rings are collected in their original order |
| Polygons.FloodFill | desktop/Polygon.cpp:433-485 | the method computes the flood fill that `FloodFillHolds` characterises |
| Polygons.FloodFillHolds | desktop/Polygon.cpp:433-485 | with no solid ring around the point the result is empty; otherwise it is an order-preserving selection holding the smallest solid ring around the point and exactly the holes inside it that are not nested in a larger hole |
| Polygons.AddToEmpty | desktop/Polygon.cpp:335-346 | adding a solid ring to the empty polygon gives that ring; adding a hole gives nothing |
| Polygons.KeptWithoutSurvivors | desktop/Polygon.cpp:270-289 | parts with no surviving intersections are kept exactly when the new ring does not contain them, in their order |
| Polygons.PartSurvivors | desktop/Polygon.cpp:262-266 | the sorted intersections of a part, with doubles removed, are strictly increasing in order and within the order bounds |
| Polygons.KeepPart | desktop/Polygon.cpp:271-289 | a part with no intersections left is kept exactly when the ring does not contain it, and the smallest container is updated |
| Polygons.CrossPart | desktop/Polygon.cpp:291-328 | amplifying a crossed part keeps the links well formed, all points taken from the inputs, and records every kept crossing |
| Polygons.AddPart | desktop/Polygon.cpp:262-328 | one pass of the loop over the parts of P keeps or amplifies that part, as the per-part invariant describes |
| Polygons.AmplifyParts | desktop/Polygon.cpp:204-329 | after all parts, the kept parts and the smallest container are those of the specification, and there are no crossings exactly when no part has a toggle |
| Polygons.UntouchedResult | desktop/Polygon.cpp:335-346 | with no crossings the result is the kept parts plus the ring exactly when its polarity differs from its smallest container's |
| Polygons.TracedResult | desktop/Polygon.cpp:350-425 | with crossings the result keeps the kept parts as a prefix and appends traced rings of at least 3 vertices from the inputs |
| Polygons.TogglesBalanced | desktop/Polygon.cpp:309-325 | the intersections kept for tracing alternate between entering and leaving, come in pairs, and are taken from the part's own list |
| Polygons.TogglesEmpty | desktop/Polygon.cpp:309-325 | no intersection is kept exactly when all of them share the entering flag of the last one |
| Polygons.AmplifyPart | desktop/Polygon.cpp:295-328 | the amplified copy of a part keeps its links well formed and records each alternating intersection with its index |
| Polygons.AmplifyRing | desktop/Polygon.cpp:350-389 | the amplified copy of the new ring links each intersection with its copy on the part and lists the entering ones as trace starts |
| Polygons.TraceFrom | desktop/Polygon.cpp:404-420 | one trace keeps every point and every link, except links it cuts (set to -2), so it never adds or redirects one; the count of live links never grows, and the trace outputs only points of the inputs |
| Polygons.Trace | desktop/Polygon.cpp:395-425 | every traced output ring has at least 3 vertices, all of them vertices or crossing points of the inputs |
| Polygons.AddResultToEmpty | desktop/Polygon.cpp:335-346 | whatever `Add` leaves of the empty polygon is the added ring itself, or nothing for a hole |
| Polygons.Add | desktop/Polygon.cpp:180-427 | the result meets `AddResult`: the union starts with the untouched parts of P not inside Q; with no intersections, Q is added exactly when its polarity differs from that of its smallest container; otherwise the traced rings follow, each with at least 3 vertices taken from the inputs |
| Intersections.MaxOrder | desktop/Polygon.cpp:16-23 | the loop returns the order after the last edge: the sum of all squared edge lengths |
| Intersections.EdgeWithinMaxOrder | desktop/Polygon.cpp:16-23 | every edge's order plus its squared length stays within the maximum order |
| Intersections.CrossingMeets | desktop/Polygon.cpp:220-235 | the normalised parameters pT and qT name the same point on both lines |
| Intersections.Hit | desktop/Polygon.cpp:241-258 | a recorded intersection has its order in `[0, pMaxOrder)` and its Q order in `[0, qMaxOrder)`, and it is entering exactly when `(cross > 0) XOR Q.IsHole()` |
| Intersections.Intersect | desktop/Polygon.cpp:220-259 | an intersection is recorded exactly for non-parallel edges whose normalised pT and qT lie in `[0, cross]` |
| Intersections.EdgeAgainstRing | desktop/Polygon.cpp:218-260 | the inner loop over the ring's edges returns exactly the intersections of the current edge of the part |
| Intersections.EdgeLoop | desktop/Polygon.cpp:217-261 | the loop over the edges of the part gathers each edge's intersections with the ring, edge after edge |
| Intersections.IntersectOnEdge | desktop/Polygon.cpp:249-258 | the recorded point lies on the P edge, and its order lies between the edge's start order and its end order |
| Intersections.Wrap | desktop/Polygon.cpp:255-257 | `% max` leaves an order below `max`, which only changes an order equal to `max`, to 0 |
| Intersections.RowsBounds | desktop/Polygon.cpp:217-259 | every intersection found between a part and the ring has its orders within the two maxima |
| Intersections.FindIntersections | desktop/Polygon.cpp:217-259 | the double edge loop returns exactly the candidate intersections, all within the order bounds |
| Intersections.SortByOrder | desktop/Polygon.cpp:48-51 | sorting yields a list ordered by order that is a permutation of the input |
| Intersections.InsertKeepsSorted | desktop/Polygon.cpp:48-51 | inserting into a sorted list keeps it sorted |
| Intersections.RemoveDoublesOf | desktop/Polygon.cpp:56-83 | removing doubles never lengthens the list |
| Intersections.RemoveDoublesSorted | desktop/Polygon.cpp:56-83 | on a sorted list the result is strictly increasing in order, and every element comes from the input |
| Intersections.ScanRun | desktop/Polygon.cpp:67-75 | the inner loop stops at the end of the run of equal orders and counts its entering flags |
| Intersections.RemoveDoubles | desktop/Polygon.cpp:56-83 | the array is compacted in place: its first `len` cells are the first element of each run whose entering flags all agree |
| PathFinding.VisibleSymmetric | desktop/Paths.cpp:253-261 | a sightline is visible in one direction exactly when it is in the other |
| PathFinding.VisibleSelf | desktop/Paths.cpp:253-261 | a point sees itself exactly when the region contains it |
| PathFinding.SeesFrom | desktop/Paths.cpp:193-210 | the sightline test between a corner and a waypoint agrees with visibility |
| PathFinding.WaypointTurn | desktop/Paths.cpp:63-80 | a corner is a waypoint exactly when its turn is concave or its three points are collinear |
| PathFinding.RingCornersOnRing | desktop/Paths.cpp:63-80 | every waypoint of a ring is one of its vertices and passes the waypoint test |
| PathFinding.ConcaveUpToAreWaypoints | desktop/Paths.cpp:63-80 | every concave point of a ring is a waypoint |
| PathFinding.LinksMembers | desktop/Paths.cpp:190-211 | a waypoint's sightlines are exactly the waypoints joined to it, each with the length of their link |
| PathFinding.LinksSymmetric | desktop/Paths.cpp:193-210 | every sightline has its mirror, with the same length, at the other waypoint, and no waypoint links to itself |
| PathFinding.ClosestIndex | desktop/Paths.cpp:216-233 | the vertex chosen is the first with the smallest squared distance, below `INT_MAX`; none is chosen when every distance reaches `INT_MAX` |
| PathFinding.ClosestInPart | desktop/Paths.cpp:222-231 | the inner loop over one ring continues the search for the first closest vertex |
| PathFinding.TopIndex | desktop/Paths.cpp:129-132 | the queue's top is an entry of least total length, the first such |
| PathFinding.Relax | desktop/Paths.cpp:147-158 | relaxing a waypoint's sightlines keeps the graph, the backtrack chains and the queue invariant |
| PathFinding.Search | desktop/Paths.cpp:127-159 | the A* loop keeps the graph and the backtrack chains, and ends with no best node or with one that is reached and sees the goal |
| PathFinding.Backtrack | desktop/Paths.cpp:166-176 | the backtrack returns the goal divided by 4 followed by a chain of linked waypoints, without repeats, from one that sees the goal to one seen from the start |
| PathFinding.BacktrackStep | desktop/Paths.cpp:168-175 | one step of the backtrack extends the chain by the current waypoint and moves to one that was reached strictly earlier |
| PathFinding.TracedRoute | desktop/Paths.cpp:166-176 | the chain the backtrack follows is a route |
| PathFinding.MaskRings | desktop/Paths.cpp:51-56 | the rings the mask loop adds are non-empty, and there are none when every mask is empty |
| PathFinding.AddStagesSnoc | desktop/Paths.cpp:51-58 | a run of `Add` from the empty polygon over a list of rings extends by one ring and its `Add` result |
| PathFinding.MaskRingsSnoc | desktop/Paths.cpp:51-56 | the rings of one more mask come after those of the masks before it, scaled by 4, and only when the mask is not empty |
| PathFinding.MergeMask | desktop/Paths.cpp:54-56 | each ring of one scaled mask is added in turn, extending the run of `Add` |
| PathFinding.MergeStep | desktop/Paths.cpp:51-56 | one turn of the mask loop adds exactly the rings of mask m, if it is not empty |
| PathFinding.Merge | desktop/Paths.cpp:51-58 | the result is the last stage of a run of `Add` from the empty polygon over every ring of every non-empty mask scaled by 4, in order, each stage meeting `AddResult`; it has non-empty rings, and is empty when every mask is empty |
| PathFinding.SeededChains | desktop/Paths.cpp:116-124 | after seeding, every reached waypoint is seen from the start and has an empty backtrack chain |
| PathFinding.Paths.constructor | desktop/Paths.h:47-62 | a new pathfinder has no region, no waypoints and the given non-negative length function |
| PathFinding.Paths.Visible | desktop/Paths.cpp:253-261 | `Visible` holds exactly when the segment does not intersect the region and the region contains its midpoint |
| PathFinding.Paths.ClosestVertex | desktop/Paths.cpp:216-233 | the result is the first vertex of the region at the smallest squared distance, or (0, 0) when there is none |
| PathFinding.Paths.Init | desktop/Paths.cpp:45-81 | the region is the last stage of the run of `Add` over the scaled mask rings, as in `Merge`, and the passable area is its flood fill from `point * 4`; its waypoints are its corners that pass the waypoint test; every waypoint starts untouched |
| PathFinding.Paths.AddCorners | desktop/Paths.cpp:63-80 | the walk over all rings of the passable area collects exactly its waypoint corners |
| PathFinding.Paths.AddRingWaypoints | desktop/Paths.cpp:63-79 | the walk over one ring appends exactly its waypoint corners, and skips rings of fewer than 3 vertices |
| PathFinding.Paths.AddCorner | desktop/Paths.cpp:72-78 | a corner is added exactly when `back.Cross(forward) >= 0` |
| PathFinding.Paths.AddWaypoint | desktop/Paths.cpp:190-211 | a new waypoint is appended and every sightline to it is added at both ends, keeping the sightline invariant |
| PathFinding.Paths.CalculateDistances | desktop/Paths.cpp:239-248 | every waypoint gets its distance to the target and whether it sees it, with backtrack -1 and an infinite shortest length |
| PathFinding.Paths.Seed | desktop/Paths.cpp:116-124 | exactly the waypoints visible from the start are queued, with backtrack -1 and shortest length their distance from the start |
| PathFinding.Paths.Find | desktop/Paths.cpp:88-177 | an empty region gives an empty path; a goal visible from the start gives exactly the goal divided by 4; otherwise a non-empty path is the goal followed by a route of waypoints back to the start |
| PathFinding.Paths.SearchRoute | desktop/Paths.cpp:109-176 | a non-empty result is the goal divided by 4 followed by the waypoints of a route |
| Rects.Rect.Plus | desktop/Rect.cpp:31-34 | `+` moves the top left corner and keeps the size |
| Rects.Rect.Minus | desktop/Rect.cpp:47-50 | `-` moves the top left corner back and keeps the size |
| Rects.Rect.Grown | desktop/Rect.cpp:80-86 | growing by d moves the top left corner by (-d, -d) and widens the size by 2d in each direction |
| Rects.FromCorners | desktop/Rect.cpp:23-26 | the rectangle from a to b has `TopLeft() == a` and `Size() == b - a` |
| Rects.Empty | desktop/Rect.cpp:13-19 | the default rectangle contains no point |
| Rects.DegenerateContainsNothing | desktop/Rect.cpp:64-69 | a rectangle with no width or no height contains nothing |
| Rects.ShiftContains | desktop/Rect.cpp:31-69 | shifting a rectangle and a point together keeps containment |
| Rects.ShiftRoundTrip | desktop/Rect.cpp:31-59 | `(r + p) - p == r` and `(r - p) + p == r` |
| Rects.GrowRoundTrip | desktop/Rect.cpp:80-86 | growing by d and then by -d gives the rectangle back |
| Rects.GrowKeeps | desktop/Rect.cpp:80-86 | growing by a non-negative amount keeps every point inside |
| Rects.OverlapsSymmetric | desktop/Rect.cpp:73-77 | `a.Overlaps(b)` exactly when `b.Overlaps(a)` |
| Rects.OverlapsIffCommonPoint | desktop/Rect.cpp:73-77 | two rectangles overlap exactly when some point lies in both |
| Rects.SharedEdgeNoOverlap | desktop/Rect.cpp:73-77 | rectangles that only share an edge do not overlap |
| Rects.RectVar.constructor | desktop/Rect.cpp:13-19 | the new rectangle holds the given values |
| Rects.RectVar.AddAssign | desktop/Rect.cpp:38-43 | `+=` leaves the old rectangle shifted by p |
| Rects.RectVar.SubAssign | desktop/Rect.cpp:54-59 | `-=` leaves the old rectangle shifted back by p |
| Rects.RectVar.Grow | desktop/Rect.cpp:80-86 | `Grow` leaves the old rectangle grown by the distance |
| DataFiles.ScanOfScanned | desktop/Data.cpp:281-289 | the indices recorded over the first i characters are increasing, below i, and mark every change between space and non-space |
| DataFiles.ScanStep | desktop/Data.cpp:281-289 | one more character of the walk records its index exactly when its whitespace status differs from the previous character's |
| DataFiles.TokensOfTokenized | desktop/Data.cpp:279-294 | the token table of a line is an even, strictly increasing list of (start, end) pairs, one per maximal run of non-space characters |
| DataFiles.TokenizeLine | desktop/Data.cpp:269-297 | the tokenizer's loop computes exactly `TokensOf(line)`, so its index list is an even, strictly increasing list of (start, end) pairs, one per maximal run of non-space characters |
| DataFiles.TokenOf | desktop/Data.cpp:153-156 | token i of a line is a non-empty run of non-space characters bounded by spaces or the line's edge |
| DataFiles.ValueOfSpan | desktop/Data.cpp:132-139 | a line's value from token i is the text from the start of that token to the end of the last token: it begins with token i, ends on a non-space character followed by a space or the line's end, and is empty when there is no token i |
| DataFiles.IndentSpan | desktop/Data.cpp:145-148 | a line with no token is all whitespace; otherwise its first token starts at its first non-space character |
| DataFiles.TagSpan | desktop/Data.cpp:119-125 | a line's tag is empty exactly when it has no token, and is otherwise its first token, non-space characters followed by a space or the line's end |
| DataFiles.TokenRun | desktop/Data.cpp:279-294 | each token is a non-empty run of non-space characters with a space or the line's edge on both sides |
| DataFiles.TokenCovers | desktop/Data.cpp:279-294 | every non-space character belongs to some token |
| DataFiles.DirPath | desktop/Data.cpp:15-22 | the directory is the prefix of the path through its last '/', or empty when there is none |
| DataFiles.Arg.Text | desktop/Data.cpp:168-171 | the string conversion is the token's characters of the line |
| DataFiles.Arg.Flag | desktop/Data.cpp:175-178 | the flag conversion holds exactly when the token spells "false" |
| DataFiles.IsInt | desktop/Data.cpp:210-216 | `IsInt` holds exactly when every character of the token is a digit, so the empty token passes and "-5" does not |
| DataFiles.PointValueNoComma | desktop/Data.cpp:196-205 | a token with no comma converts to (0, 0) |
| DataFiles.PointValueAtComma | desktop/Data.cpp:196-205 | otherwise the point is `atoi` of the token and `atoi` of the text after its first comma |
| DataFiles.ArgPoint | desktop/Data.cpp:196-205 | the comma search returns that point |
| DataFiles.FindComma | desktop/Data.cpp:199-201 | the loop finds the first comma of the token, or its end |
| DataFiles.AtoiDigits | desktop/Data.cpp:182-185 | `atoi` of a run of digits is its decimal value |
| DataFiles.Data.constructor | desktop/Data.cpp:46-51 | a reader over a list of lines starts at its first line |
| DataFiles.Data.Tokenize | desktop/Data.cpp:269-297 | tokenizing keeps the position and reports whether a line is left |
| DataFiles.Data.Next | desktop/Data.cpp:56-64 | `Next` advances exactly when a line is left and reports it; at the end it stays put |
| DataFiles.Data.More | desktop/Data.cpp:69-79 | `operator bool` means not at the end, and `operator!` is its negation |
| DataFiles.Data.Size | desktop/Data.cpp:103-106 | the token count is half the length of the index list |
| DataFiles.Data.At | desktop/Data.cpp:153-156 | token i of the current line is a non-empty run of non-space characters bounded by spaces or the line's edge |
| DataFiles.Data.Indent | desktop/Data.cpp:145-148 | the indent is the index of the first non-space character, or 0 on a blank line and past the last line |
| DataFiles.Data.Tag | desktop/Data.cpp:119-125 | the tag is empty exactly when the line has no tokens (so also past the last line), and otherwise is the first token |
| DataFiles.Data.Value | desktop/Data.cpp:132-139 | `Value(i)` runs from the start of token i through the end of the last token, with no trailing space, and is empty when there is no token i, so also past the last line; its end is `tokens.back()` |
| DataFiles.ValueEndsAtLastToken | desktop/Data.cpp:132-139 | `Value(i)` ends exactly at the end of the line's last token |
| DataFiles.IntOfDigits | desktop/Data.cpp:182-185 | the integer conversion of an all-digit token is its decimal value |
| VariableStore.Power | desktop/Variables.cpp:36 | `**` with a non-negative exponent is the exact power; a negative exponent of a base beyond ±1 gives 0 |
| VariableStore.FindOpFrom | desktop/Variables.cpp:296-306 | the search finds a matching operator of the table, and finds none exactly when no entry matches |
| VariableStore.FindOp | desktop/Variables.cpp:296-306 | the loop returns the first matching table entry |
| VariableStore.FindOpLongest | desktop/Variables.cpp:296-306 | in a table where longer operators precede their prefixes, the match found is the longest, so "<=" beats "<" |
| VariableStore.TablesGreedy | desktop/Variables.cpp:35-69 | the binary, unary and assignment tables list every operator before the operators that are its prefixes |
| VariableStore.BinaryPrecedence | desktop/Variables.cpp:35-50 | a binary operator pops the one on the stack exactly when that one binds at least as tightly, so equal precedence is left-associative |
| VariableStore.BinaryTiers | desktop/Variables.cpp:35-50 | the tiers are `* / %`, then `+ -`, then the comparisons, then `== !=`, then `&&`, then `||` |
| VariableStore.UnaryPrecedence | desktop/Variables.cpp:53-56 | a unary operator never pops an operator of equal precedence, and pops a binary one except `**` |
| VariableStore.ParenHolds | desktop/Variables.cpp:60 | no operator pops the '(' marker |
| VariableStore.StepParseMode | desktop/Variables.cpp:99-142 | after an operator character other than ')' the parser expects a unary operator, and after a value or ')' a binary one; blanks change nothing |
| VariableStore.UnknownOperatorStops | desktop/Variables.cpp:143-147 | an operator that is not in the table stops the evaluation with 0 |
| VariableStore.RunUnmatchedClose | desktop/Variables.cpp:117-126 | a ')' reached while no '(' is open on the operator stack makes `Eval` return 0 and leaves the store as it was at that point, wherever the ')' stands in the line |
| VariableStore.EvalStrayClose | desktop/Variables.cpp:117-126 | "1)", a ')' after a value with no '(' before it, evaluates to 0 and changes no variable |
| VariableStore.EvalUnmatchedClose | desktop/Variables.cpp:117-126 | a line that opens with ')' evaluates to 0 and changes no variable |
| VariableStore.EvalOf | desktop/Variables.cpp:89-184 | evaluation only adds names at 0 to the store and keeps every value, as the header promises |
| VariableStore.EvalSameLookups | desktop/Variables.h:17-18 | the result of `Eval` depends only on the values in the store |
| VariableStore.EvalIntText | desktop/Variables.cpp:160-179 | evaluating one blank followed by the decimal text of any integer, which is how `Set` passes the text after the operator of a saved line, gives that integer |
| VariableStore.ValueTokens | desktop/Variables.cpp:275-287 | an all-digit token is its decimal value; any other token is a lookup that defaults to 0 and enters the store |
| VariableStore.Put | desktop/Variables.cpp:190-229 | storing keeps the store sorted, sets the name and leaves every other value |
| VariableStore.SetEmpty | desktop/Variables.cpp:190-193 | `Set` on an empty line returns 0 and changes nothing |
| VariableStore.SetStartsWithOperator | desktop/Variables.cpp:197-212 | a line that starts with an operator returns 0 and changes nothing |
| VariableStore.SetWithoutOperator | desktop/Variables.cpp:197-218 | a line with no operator sets its variable to 1 and returns 1, leaving every other value |
| VariableStore.SetFindsName | desktop/Variables.cpp:197-214 | `Set` first reads the name and enters it in the store |
| VariableStore.SetNamedAssigns | desktop/Variables.cpp:220-228 | after the name, the assignment operator found decides the new value from the old one and `Eval` of the rest |
| VariableStore.AssignedStores | desktop/Variables.cpp:228 | the assigned variable gets the computed value and every other value is that after `Eval` |
| VariableStore.SetAssignment | desktop/Variables.cpp:190-229 | `set name = v` leaves the variable at v and every other variable as it was |
| VariableStore.RestoreLine | desktop/Variables.cpp:242-251 | replaying one saved line restores that variable, and changes nothing for a zero value |
| VariableStore.SaveRoundTrip | desktop/Variables.cpp:242-251 | replaying the saved lines through `Set` from an empty store gives back every value |
| VariableStore.Apply | desktop/Variables.cpp:260-272 | `Apply` pops the operator and its operands and pushes the result |
| VariableStore.Scan | desktop/Variables.cpp:197-207 | the name scan stops at the first operator character and remembers the last non-blank character |
| VariableStore.PushAt | desktop/Variables.cpp:138-159 | pushing an operator pops what it must first and then pushes it |
| VariableStore.CloseParens | desktop/Variables.cpp:119-131 | the loop at ')' applies operators up to the '(' as the semantics says |
| VariableStore.PopBefore | desktop/Variables.cpp:152-154 | the loop before a push applies exactly the operators that the new one pops |
| VariableStore.PopRemaining | desktop/Variables.cpp:181-183 | the final loop applies every operator left on the stack |
| VariableStore.Touch | desktop/Variables.cpp:214 | looking a name up in the store enters it at 0 if it is missing, keeps the store sorted and changes no value |
| VariableStore.ValueOf | desktop/Variables.cpp:275-287 | looking up a token keeps the store sorted and every value as it was |
| VariableStore.SetOf | desktop/Variables.cpp:190-229 | the `set` semantics keeps the store sorted |
| VariableStore.Variables.constructor | desktop/Variables.cpp:18 | a new store is empty |
| VariableStore.Variables.Clear | desktop/Variables.cpp:234-237 | `Clear` empties the store |
| VariableStore.Variables.Value | desktop/Variables.cpp:275-287 | `Value` returns the value of the token and updates the store as `ValueTokens` describes |
| VariableStore.Variables.Eval | desktop/Variables.cpp:89-184 | the evaluator's loop computes the outcome and the store of the expression semantics |
| VariableStore.Variables.Set | desktop/Variables.cpp:190-229 | `Set` computes the outcome and the store of the `set` semantics |
| VariableStore.Variables.Save | desktop/Variables.cpp:242-251 | `Save` writes "set name" for 1, "set name = v" for any other nonzero value, and nothing for 0, in name order |
| Interactions.ZeroRadiusInRange | desktop/Interaction.cpp:12-24 | a radius of (0, 0) puts every point in range |
| Interactions.CentreInRange | desktop/Interaction.cpp:13-24 | the centre is in range for every radius |
| Interactions.InRangeInward | desktop/Interaction.cpp:13-24 | a point no farther out on either axis than one in range is in range too |
| Interactions.RangeEdge | desktop/Interaction.cpp:13-24 | on the x axis the range ends exactly at the radius |
| Interactions.Transition | desktop/Interaction.cpp:133-155 | the new state is ACTIVE exactly inside the active range; VISIBLE exactly outside it, with a visible icon, inside the visible range; and INACTIVE otherwise; IMMEDIATE is returned exactly on entering ACTIVE with no active icon |
| Interactions.ImmediateOnce | desktop/Interaction.cpp:139-146 | after IMMEDIATE, staying in the active range returns ACTIVE |
| Interactions.IconFor | desktop/Interaction.cpp:185-192 | the icon is 0 unless the state is VISIBLE or ACTIVE, and then it is that state's icon |
| Interactions.ImmediateShowsNothing | desktop/Interaction.cpp:139-146 | an immediate interaction shows no icon |
| Interactions.ApplyLine | desktop/Interaction.cpp:42-74 | one line of `Load` with a known tag sets its fields, and an unknown tag leaves them; a missing hover icon defaults to the active one |
| Interactions.ApplyLines | desktop/Interaction.cpp:42-75 | applying the lines of `Load` keeps the name, the state, two radii and three icons |
| Interactions.ReadArgs | desktop/Interaction.cpp:44-70 | the arguments read from the current line are `ArgsOfLine` of that line: its tag, token 1 as a point, tokens 2 and 3 as integers, and the values from tokens 1 and 2 |
| Interactions.HoverNeverMissing | desktop/Interaction.cpp:53-60 | after loading, a hover icon is missing only if the active icon is too |
| Interactions.Interaction.constructor | desktop/Interaction.h:77-89 | a new interaction has no name, state INACTIVE, zero icons and origin positions |
| Interactions.ReadFromSnoc | desktop/Interaction.cpp:42-74 | what the loading loop has read extends by the arguments of the next line, and all its tags stay known |
| Interactions.ApplyLinesSnoc | desktop/Interaction.cpp:42-74 | applying one more line applies it to the fields the earlier lines gave |
| Interactions.Interaction.Load | desktop/Interaction.cpp:39-76 | `Load` takes the name from the first line, then applies the arguments `ArgsOfLine` reads from each following line, in order, while the tag is known; the reader ends one line past the last line applied, at the end, at a blank line or at an unknown tag |
| Interactions.Interaction.LoadLines | desktop/Interaction.cpp:42-74 | the loop applies, in order, the arguments `args` (which is `ArgsOfLine`) reads from each line after the current one while its tag is known, and stops one line past the last one applied |
| Interactions.Interaction.LoadNext | desktop/Interaction.cpp:42-74 | one step of the loading loop advances the reader and applies the arguments `args` (which is `ArgsOfLine`) reads from the line it moves to when its tag is known, or stops |
| Interactions.Interaction.LoadLine | desktop/Interaction.cpp:44-72 | one line's fields are applied by the field rules |
| Interactions.Interaction.SetState | desktop/Interaction.cpp:133-155 | `SetState(avatar)` measures from the interaction's position, makes the transition, and changes only the state |
| Interactions.Interaction.SetStateTo | desktop/Interaction.cpp:160-163 | `SetState(state)` sets the state and nothing else |
| Interactions.Interaction.ClearState | desktop/Interaction.cpp:169-172 | `ClearState` sets INACTIVE, so no icon shows |
| Interactions.Interaction.Icon | desktop/Interaction.cpp:185-192 | `Icon` is the icon of the current state |
| Interactions.Interaction.Place | desktop/Interaction.cpp:221-225 | `Place` overwrites exactly the position and the offset |
| Rooms.LessStrictWeakOrder | desktop/Room.cpp:248-251 | the drawing order is irreflexive, transitive, and has transitive ties |
| Rooms.LessTies | desktop/Room.cpp:248-251 | two entries tie exactly when their layers agree and, on layer 0, their centres have the same y |
| Rooms.InsertKeepsSorted | desktop/Room.cpp:88-96 | inserting at the upper bound keeps the sprites sorted |
| Rooms.EraseInsert | desktop/Room.cpp:88-126 | removing at the index `Add` returned restores the previous list |
| Rooms.EraseKeepsSorted | desktop/Room.cpp:122-126 | removing an entry keeps the sprites sorted |
| Rooms.WithoutKeepsOthers | desktop/Room.cpp:139-156 | removing by name keeps exactly the elements with other names |
| Rooms.WithoutIdempotent | desktop/Room.cpp:139-156 | removing a name twice is the same as removing it once |
| Rooms.WithoutKeepsSorted | desktop/Room.cpp:139-156 | removing by name keeps the sprites sorted |
| Rooms.UpperBound | desktop/Room.cpp:90-93 | the insertion index is after every entry that does not sort after the new one, and before every one that does |
| Rooms.EraseNamed | desktop/Room.cpp:139-156 | the erase loop removes every element with the name and keeps the rest in order |
| Rooms.Room.constructor | desktop/Room.h:100 | a new room has no name, no sprites, no interactions and the black default colour |
| Rooms.Room.Reset | desktop/Room.cpp:293-299 | `Reset` empties the name, the sprites and the interactions and restores the default grey background |
| Rooms.Room.Add | desktop/Room.cpp:88-96 | `Add` inserts the entry at its upper bound, returns that index, and changes nothing else |
| Rooms.Room.AddInteraction | desktop/Room.cpp:101-104 | adding an interaction appends it |
| Rooms.Room.Find | desktop/Room.cpp:110-117 | `Find` returns the first entry whose bounds contain the point, or -1 when none does. The comments of desktop/Room.h:39 and desktop/Room.cpp:108 promise the top-most sprite, but the first entry is drawn first and so lies underneath; the model follows the code |
| Rooms.Room.Remove | desktop/Room.cpp:122-126 | `Remove(index)` erases only an index in range; any other index changes nothing |
| Rooms.Room.RemoveInteraction | desktop/Room.cpp:131-134 | removing an interaction erases it and keeps the others in order |
| Rooms.Room.RemoveNamed | desktop/Room.cpp:139-156 | `Remove(name)` deletes every sprite and every interaction with that name and keeps the rest in order |
| Rooms.Room.Button | desktop/Room.cpp:217-228 | `Button` returns the last ACTIVE interaction whose icon contains the point, or none |
| Canvases.Code | desktop/Canvas.cpp:14-20 | bit 0 is x < 0, bit 1 is x > width, bit 2 is y < 0 and bit 3 is y > height, so the code is 0 exactly in the closed box |
| Canvases.CodeOpposite | desktop/Canvas.cpp:14-20 | no point is beyond both sides on one axis |
| Canvases.Shift | desktop/Canvas.cpp:22-39 | `Shift` puts the point on x = 0 or x = width when an x bit is set, and otherwise on y = 0 or y = height |
| Canvases.ShiftStep | desktop/Canvas.cpp:22-64 | when `Clip` shifts a point its divisor is nonzero, the point stays in the line's bounding box, and the clipping makes progress |
| Canvases.ClipOf | desktop/Canvas.cpp:41-65 | a visible line ends inside the box; an end already inside is not moved; the ends stay along the line; two ends beyond one side hide the line |
| Canvases.ClipInside | desktop/Canvas.cpp:41-49 | a line inside the box is visible and unchanged |
| Canvases.Strokes | desktop/Canvas.cpp:184-189 | drawing through a list of points makes exactly one stroke per point |
| Canvases.Clip | desktop/Canvas.cpp:41-65 | the clipping loop computes that clipping |
| Canvases.StrokesInOrder | desktop/Canvas.cpp:184-189 | the strokes go to each point in order, each starting where the last ended |
| Canvases.Corners | desktop/Canvas.cpp:170-179 | a rectangle has four corners, the last being its top left |
| Canvases.RingStrokesClosed | desktop/Canvas.cpp:184-189 | drawing a ring closes the loop: the first stroke starts where the last ends |
| Canvases.RectStrokes | desktop/Canvas.cpp:170-179 | a rectangle is drawn along its four corners and back to the start |
| Canvases.Canvas.constructor | desktop/Canvas.cpp:74-78 | a new canvas has the given size, its pen at (0, 0) and no strokes |
| Canvases.Canvas.MoveTo | desktop/Canvas.cpp:99-102 | `MoveTo` moves the pen and draws nothing |
| Canvases.Canvas.LineTo | desktop/Canvas.cpp:107-117 | `LineTo` moves the pen to the point even when the line is hidden, and clips against (w - 1, h - 1) |
| Canvases.Canvas.DrawRect | desktop/Canvas.cpp:170-179 | drawing a rectangle adds its four strokes and leaves the pen at its top left corner |
| Canvases.Canvas.DrawRing | desktop/Canvas.cpp:184-189 | drawing a ring adds its closed strokes and leaves the pen at its last vertex |
| Canvases.Canvas.DrawPolygon | desktop/Canvas.cpp:194-198 | drawing a polygon draws each ring in turn |
| Avatars.BestFacing | desktop/Avatar.cpp:35-49 | the chosen facing has the largest dot product and none before it ties; none is chosen only when no dot exceeds the smallest `int` |
| Avatars.NoFacings | desktop/Avatar.cpp:37-48 | with no facings the sprite is 0 |
| Avatars.StillFacing | desktop/Avatar.cpp:35-49 | for a zero movement the first facing is chosen |
| Avatars.FacingIsFirstMax | desktop/Avatar.cpp:35-49 | the sprite shown is that of the first facing with the largest dot product |
| Avatars.ChooseFacing | desktop/Avatar.cpp:35-49 | the loop returns that sprite |
| Avatars.Avatar.constructor | desktop/Avatar.h:41-44 | a new avatar is in no room, at (0, 0), with sprite 0 |
| Avatars.Avatar.Enter | desktop/Avatar.cpp:101-110 | `Enter` always sets the position, changes the room only for a non-null one, and faces the default direction only while no sprite is set |
| Avatars.Avatar.Move | desktop/Avatar.cpp:115-120 | `Move` sets the position and faces the direction of the movement |
| Avatars.Avatar.Face | desktop/Avatar.cpp:125-128 | `Face` picks the sprite for the compass direction and stays put |
| Svg.DigitRun | desktop/svg.cpp:17-18 | the digit loop stops at the first character that is not a digit |
| Svg.ReadIntOf | desktop/svg.cpp:9-20 | `ReadInt` never moves backwards and never past the end |
| Svg.ReadIntProgress | desktop/svg.cpp:9-20 | `ReadInt` consumes nothing exactly when the character is not a space, a '-' or a digit, and then it returns 0 |
| Svg.ReadIntNoDigits | desktop/svg.cpp:11-18 | with no digits after the optional space and sign it returns 0 |
| Svg.ReadNumeral | desktop/svg.cpp:9-20 | after a space, the decimal text of an integer reads as that integer |
| Svg.ReadSigned | desktop/svg.cpp:11-19 | a space, an optional '-' and a run of digits read as the signed decimal value |
| Svg.ReadInt | desktop/svg.cpp:9-20 | the method computes exactly that reading |
| Svg.ReadDigits | desktop/svg.cpp:16-18 | the digit loop accumulates the decimal value of the run |
| Svg.StepAsWritten | desktop/svg.cpp:40-58 | one pass of the loop as written never moves backwards |
| Svg.NoProgressSpins | desktop/svg.cpp:40-58 | a pass that consumes nothing leaves the loop exactly where it was |
| Svg.SpinsForEver | desktop/svg.cpp:40-58 | from such a pass the loop as written never ends |
| Svg.OpenPathSteps | desktop/svg.cpp:40-58 | on `<path d="m 1 2"/>` the loop reads (1, 2) and then stops moving at the closing quote |
| Svg.OpenPathHangs | desktop/svg.cpp:40-58 | the loop as written never ends on that line |
| Svg.StepOf | desktop/svg.cpp:40-58 | one pass of the corrected loop always moves forward |
| Svg.StepOfAgrees | desktop/svg.cpp:40-58 | the corrected pass differs from the written one only where the written one is stuck |
| Svg.RunAsWrittenAgrees | desktop/svg.cpp:40-58 | whenever the loop as written ends, it emits what the corrected loop emits |
| Svg.OpenPathEnds | desktop/svg.cpp:40-58 | the corrected loop reads `[(1, 2)]` from that line |
| Svg.PairRead | desktop/svg.cpp:9-20 | a pair of written numbers before a blank or a `z` reads back as its two numbers, each read ending where the next begins |
| Svg.MovesStep | desktop/svg.cpp:50-57 | in mode `l` or `m`, a pass over such a pair moves x by dx and y by dy and emits the new position |
| Svg.MovesAtOf | desktop/svg.cpp:40-57 | the written moves before a `z` are found by the reader pair after pair |
| Svg.MovesRead | desktop/svg.cpp:46-57 | where the reader finds moves pair after pair, the loop in mode `m` or `l` emits their running sums |
| Svg.PathEnds | desktop/svg.cpp:34-56 | a path line starts in mode `m` after its prefix and ends at the `z` |
| Svg.ClosedPathRead | desktop/svg.cpp:29-59 | a closed path written from relative moves reads back as their running sums from (0, 0) |
| Svg.WrittenPathRead | desktop/svg.cpp:29-59 | for any list of moves, their decimal path text reads back as their running sums |
| Svg.FindPrefix | desktop/svg.cpp:29-32 | the prefix search finds the first position of `<path d="`, or none |
| Svg.OutputConcat | desktop/svg.cpp:27-61 | the output of several lines is the output of each line in turn |
| Svg.ReadGroup | desktop/svg.cpp:45-56 | one number group in modes `v`, `h`, `l` and `m` makes the written step, and any other mode stops the line |
| Svg.ReadPath | desktop/svg.cpp:34-59 | the loop over one path line emits the corrected trace of running positions |
| Svg.Convert | desktop/svg.cpp:24-64 | the converter turns every line holding the prefix into a `mask` line of its points and skips the others; it is built on the corrected number loop (`Svg.StepOf`), because on an open path the loop as written never ends (see Findings) |

## Left out

- SDL drawing: the Bresenham pixel loop of `LineTo` (desktop/Canvas.cpp:119-164), `SetColor`, and locking the surface. `LineTo` records the stroke and its clipping instead.
- Floating point. Areas are exact doubled integers; path lengths come from an abstract non-negative `length`; `Point::Length`, `Distance` and `sqrt` are left out.
- 32-bit overflow. Integers are unbounded; `Points.NoOverflow` shows the coordinate bound under which `Dot` and `Cross` fit in an `int`.
- Points.Point.Div: division by zero is excluded by its precondition, as the program never divides by zero.
- Ring.h:37 says containment includes the boundary, but `Ring::Contains` ignores the border count. The model follows the code; `Polygon::Contains` does count the border, and so does the model.
- Intersections.SortByOrder: `std::sort` leaves the order of equal orders unspecified; the model sorts stably.
- Polygons.Add: the model stops a trace that would run past the end of the amplified vertices, and skips the closing vertex of a part that pushed none. The program would read outside the vector in both cases.
- Polygons.Add: the result is stated as a prefix of kept parts followed by traced rings. It is not proved that the traced rings form the geometric union.
- PathFinding.Paths.Init: it takes the masks of the room's sprites as a list of polygons instead of reading the sprite registry.
- PathFinding.Paths.Find: the A* loop runs on a `fuel` bound, and an exhausted bound gives an empty path. The ties of the priority queue take the first least entry, where `std::priority_queue` leaves that order unspecified. Optimality of the route found is not stated. Nor is the promise of desktop/Paths.h:28-29 that an empty result means the start point is outside the polygon: the model does not prove that a route exists whenever the start is inside, so an empty path is only known to mean that no route was found within the bound.
- Rooms: `Load`, `Save` and `Draw` are file I/O and SDL, so they are left out. A loaded room appends without sorting. The layer and bounds of a sprite come in as parameters instead of from the sprite registry. The erase loops of `Remove(name)` (desktop/Room.cpp:141-153) go on with the iterator they passed to `erase`, which the C++ standard invalidates, although the comment at desktop/Room.cpp:141 says otherwise; the model takes the behaviour of common implementations, where that iterator then names the next element.
- Avatars: `Load`, `Speed` and the trigonometry of `Vector` are left out. The facings and the direction function come in as parameters.
- DataFiles: `Load`, `include`, `Directory` and `Save` read and write files. The model reads an in-memory list of lines.
- DataFiles.Data.At: an index past the last token is excluded by its precondition, as in the program it reads outside the token list.
- Interactions: a field that `Load` reads past the last token reads as 0. `Save` and the plain getters are left out.
- VariableStore: `**` is modelled as exact integer power instead of through `pow`. Division by zero and a missing operand are undefined in the program. At an unclosed '(' the program throws `std::bad_function_call`, because the final pop loop calls the empty function of the parenthesis marker (desktop/Variables.cpp:181-182, 270), and nothing catches it. The model gives all of these the outcome `Undefined`.
- VariableStore.Variables.Save: it returns the lines it would write instead of writing them to a stream.
- VariableStore.IsBlank: the program compares a plain `char` with `' '` (desktop/Variables.cpp:103, 169, 204). Where `char` is signed, every byte from 0x80 up counts as blank, so the `set café = 1` of a UTF-8 file names the variable `caf`; the model counts every character above `' '` as part of a name, and gives `café`.
- Strings are sequences of characters, not of bytes: no encoding is modelled, in `VariableStore`, `DataFiles` or `Svg`.
- The dialog interpreter that calls `Variables` is not part of this model.
- Svg: reading past the end of a line is modelled as reading '\0'. The `getline`/`cout` loop becomes `Convert` over a list of lines.
- Svg.ClosedPathRead: it is stated for numbers written as decimal digits with an optional '-', leading zeros allowed. A signed zero such as `-0` is not covered.
- Canvases.Clip: it requires a non-negative width and height.

## Findings

| source | as written | input that shows it | evidently intended | confidence | as-written member | corrected member |
|---|---|---|---|---|---|---|
| desktop/svg.cpp:40-58 | when a number group consumes nothing, the loop neither advances nor stops | the line `<path d="m 1 2"/>`: after reading (1, 2) it sits at the closing `"` for ever | stop or move on, emitting the points read so far | high, not executed | Svg.OpenPathHangs | Svg.OpenPathEnds |
