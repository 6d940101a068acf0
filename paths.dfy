// Pathfinding over the passable region of a room. The region is the union of
// the sprites' collision masks, scaled by 4 and cut down to the component the
// avatar stands in. Its reflex vertices become waypoints; sightlines join the
// waypoints that can see each other, and `Find` runs A* over that graph.
//
// Lengths come from `Point::Length`, a floating-point square root; the model
// keeps them abstract as a nonnegative function `length` on vectors, and A*
// adds them up as reals.
module PathFinding {
  import opened Ints
  import opened Points
  import opened Edges
  import opened Rings
  import opened Polygons

  /** Internal coordinates are four times finer than room coordinates. */
  const INTERNAL_SCALE: int := 4

  /** One entry of a waypoint's sightline list: the other waypoint and the
      length of the segment between them. */
  datatype Sightline = Sightline(index: nat, distance: real)

  /** A path length that may still be infinite. */
  datatype Length = Infinite | Finite(value: real)

  /** A waypoint: its position, its sightlines, and the fields the search
      writes (the remaining distance to the target, whether the target is in
      sight, the previous waypoint on the best path, and that path's length). */
  datatype Waypoint = Waypoint(point: Point, sightlines: seq<Sightline>, distance: real,
                               visible: bool, backtrack: int, shortest: Length)

  /** A waypoint as `AddWaypoint` creates it: no sightlines yet, default fields. */
  function NewWaypoint(p: Point): Waypoint
  {
    Waypoint(p, [], 0.0, false, -1, Finite(0.0))
  }

  /** The search fields still hold the values a new waypoint starts with. */
  predicate Untouched(w: Waypoint)
  {
    w.distance == 0.0 && !w.visible && w.backtrack == -1 && w.shortest == Finite(0.0)
  }

  // ---------------------------------------------------------------------
  // Visibility

  /** `(from + to) / 2`, truncating toward zero. */
  function Midpoint(a: Point, b: Point): Point
  {
    a.Plus(b).Div(2)
  }

  /** The segment can be walked: it crosses no edge of the region strictly
      between its end points, and its midpoint is inside the region (so two
      vertices joined through a hole do not count as visible). */
  predicate VisibleOf(P: Polygon, from: Point, to: Point)
  {
    !PolygonIntersects(P, from, to) && PolygonContains(P, Midpoint(from, to))
  }

  /** Seeing is mutual. */
  lemma VisibleSymmetric(P: Polygon, a: Point, b: Point)
    ensures VisibleOf(P, a, b) <==> VisibleOf(P, b, a)
  {
    IntersectsSymmetric(P, a, b);
    assert a.Plus(b) == b.Plus(a);
  }

  /** A point sees itself exactly when it lies in the region. */
  lemma VisibleSelf(P: Polygon, a: Point)
    ensures VisibleOf(P, a, a) <==> PolygonContains(P, a)
  {
    PointSegmentNeverIntersects(P, a);
    assert a.Plus(a) == a.Times(2);
    ScaleDivide(a, 2);
  }

  // ---------------------------------------------------------------------
  // Waypoints: the vertices where the region's border turns inward

  /** A vertex with the vectors to its neighbours on the ring. */
  datatype Corner = Corner(point: Point, back: Point, forward: Point)

  /** Step k of the walk in `Init`: `here` is the start of edge k, `prev` the
      vertex before it and `next` the end of edge k. */
  function CornerAt(ring: Ring, k: nat): Corner
    requires |ring| >= 2 && k < |ring|
  {
    var here := StartAt(ring, k);
    Corner(here, PrevAt(ring, k).Minus(here), EndAt(ring, k).Minus(here))
  }

  /** The waypoint test: the turn from `back` to `forward` is not clockwise. */
  predicate IsWaypoint(c: Corner)
  {
    c.back.Cross(c.forward) >= 0
  }

  /** The waypoint corners among the first k steps of the walk around a ring. */
  function RingCornersUpTo(ring: Ring, k: nat): (r: seq<Corner>)
    requires |ring| >= 2 && k <= |ring|
  {
    if k == 0 then []
    else RingCornersUpTo(ring, k - 1) + (if IsWaypoint(CornerAt(ring, k - 1)) then [CornerAt(ring, k - 1)] else [])
  }

  /** The waypoint corners of a ring; a degenerate ring has none. */
  function RingCorners(ring: Ring): seq<Corner>
  {
    if |ring| < 3 then [] else RingCornersUpTo(ring, |ring|)
  }

  /** The waypoint corners of every ring, ring by ring. */
  function CornersOf(P: Polygon): seq<Corner>
  {
    if P == [] then [] else CornersOf(P[..|P| - 1]) + RingCorners(P[|P| - 1])
  }

  /** The waypoint test is `ConcaveTurn` with collinear vertices let in: the
      two cross products are negatives of each other. */
  lemma WaypointTurn(ring: Ring, k: nat)
    requires |ring| >= 2 && k < |ring|
    ensures var prev, here, next := PrevAt(ring, k), StartAt(ring, k), EndAt(ring, k);
            IsWaypoint(CornerAt(ring, k)) <==>
              ConcaveTurn(prev, here, next) || here.Minus(prev).Cross(next.Minus(prev)) == 0
  {
    var a, b, c := PrevAt(ring, k), StartAt(ring, k), EndAt(ring, k);
    calc {
      a.Minus(b).Cross(c.Minus(b));
      (a.x - b.x) * (c.y - b.y) - (a.y - b.y) * (c.x - b.x);
      a.x * c.y - a.x * b.y - b.x * c.y - a.y * c.x + a.y * b.x + b.y * c.x;
      -((b.x - a.x) * (c.y - a.y) - (b.y - a.y) * (c.x - a.x));
      -b.Minus(a).Cross(c.Minus(a));
    }
  }

  /** Every concave vertex that `ConcavePoints` reports is also a waypoint. */
  lemma {:induction false} ConcaveUpToAreWaypoints(ring: Ring, k: nat)
    requires |ring| >= 2 && k <= |ring|
    ensures forall q :: q in ConcaveUpTo(ring, k) ==> exists c :: c in RingCornersUpTo(ring, k) && c.point == q
  {
    if k > 0 {
      ConcaveUpToAreWaypoints(ring, k - 1);
      WaypointTurn(ring, k - 1);
      var c := CornerAt(ring, k - 1);
      forall q | q in ConcaveUpTo(ring, k)
        ensures exists c :: c in RingCornersUpTo(ring, k) && c.point == q
      {
        if q in ConcaveUpTo(ring, k - 1) {
          var d :| d in RingCornersUpTo(ring, k - 1) && d.point == q;
          assert d in RingCornersUpTo(ring, k);
        } else {
          assert c in RingCornersUpTo(ring, k);
        }
      }
    }
  }

  /** Each waypoint corner sits on a vertex of its ring. */
  lemma {:induction false} RingCornersOnRing(ring: Ring, k: nat)
    requires |ring| >= 2 && k <= |ring|
    ensures forall c :: c in RingCornersUpTo(ring, k) ==> c.point in ring && IsWaypoint(c)
  {
    if k > 0 {
      RingCornersOnRing(ring, k - 1);
      assert StartAt(ring, k - 1) in ring;
    }
  }

  // ---------------------------------------------------------------------
  // Sightlines

  /** The test `AddWaypoint` applies from the new corner `c` to an earlier
      waypoint at `w`: the direction leaves the corner into the region (not
      into the narrow outside angle between `back` and `forward`), and the
      segment crosses no edge. */
  predicate Sees(P: Polygon, c: Corner, w: Point)
  {
    var angle := w.Minus(c.point);
    (c.back.Cross(angle) <= 0 || angle.Cross(c.forward) <= 0) && !PolygonIntersects(P, w, c.point)
  }

  /** Waypoints a and b are joined: the later of the two saw the earlier one
      when it was added. */
  predicate Linked(P: Polygon, C: seq<Corner>, a: nat, b: nat)
    requires a < |C| && b < |C|
  {
    a != b && if a < b then Sees(P, C[b], C[a].point) else Sees(P, C[a], C[b].point)
  }

  /** The length stored on the sightline between waypoints lo < hi. */
  function LinkLength(length: Point -> real, C: seq<Corner>, lo: nat, hi: nat): real
    requires lo < |C| && hi < |C|
  {
    length(C[lo].point.Minus(C[hi].point))
  }

  /** The sightlines waypoint j gathered when it was added, to waypoints below n. */
  function Earlier(P: Polygon, length: Point -> real, C: seq<Corner>, j: nat, n: nat): seq<Sightline>
    requires n <= j < |C|
  {
    if n == 0 then [] else
      Earlier(P, length, C, j, n - 1)
        + (if Sees(P, C[j], C[n - 1].point) then [Sightline(n - 1, LinkLength(length, C, n - 1, j))] else [])
  }

  /** The sightlines that waypoints i+1 .. n-1 added to waypoint i. */
  function Later(P: Polygon, length: Point -> real, C: seq<Corner>, i: nat, n: nat): seq<Sightline>
    requires i < n <= |C|
  {
    if n == i + 1 then [] else
      Later(P, length, C, i, n - 1)
        + (if Sees(P, C[n - 1], C[i].point) then [Sightline(n - 1, LinkLength(length, C, i, n - 1))] else [])
  }

  /** The full sightline list of waypoint i once all of C has been added. */
  function Links(P: Polygon, length: Point -> real, C: seq<Corner>, i: nat): seq<Sightline>
    requires i < |C|
  {
    Earlier(P, length, C, i, i) + Later(P, length, C, i, |C|)
  }

  lemma {:induction false} EarlierMembers(P: Polygon, length: Point -> real, C: seq<Corner>, j: nat, n: nat, s: Sightline)
    requires n <= j < |C|
    ensures s in Earlier(P, length, C, j, n) <==>
              s.index < n && Sees(P, C[j], C[s.index].point) && s.distance == LinkLength(length, C, s.index, j)
  {
    if n > 0 {
      EarlierMembers(P, length, C, j, n - 1, s);
    }
  }

  lemma {:induction false} LaterMembers(P: Polygon, length: Point -> real, C: seq<Corner>, i: nat, n: nat, s: Sightline)
    requires i < n <= |C|
    ensures s in Later(P, length, C, i, n) <==>
              i < s.index < n && Sees(P, C[s.index], C[i].point) && s.distance == LinkLength(length, C, i, s.index)
  {
    if n > i + 1 {
      LaterMembers(P, length, C, i, n - 1, s);
    }
  }

  /** A sightline of waypoint i leads to another waypoint joined to it, and
      carries the length of the segment between the two. */
  lemma LinksMembers(P: Polygon, length: Point -> real, C: seq<Corner>, i: nat, s: Sightline)
    requires i < |C|
    ensures s in Links(P, length, C, i) <==>
              s.index < |C| && Linked(P, C, i, s.index)
              && s.distance == (if s.index < i then LinkLength(length, C, s.index, i) else LinkLength(length, C, i, s.index))
  {
    EarlierMembers(P, length, C, i, i, s);
    LaterMembers(P, length, C, i, |C|, s);
  }

  /** Sightlines come in pairs with equal lengths, and none joins a waypoint
      to itself. */
  lemma LinksSymmetric(P: Polygon, length: Point -> real, C: seq<Corner>, i: nat, s: Sightline)
    requires i < |C| && s in Links(P, length, C, i)
    ensures s.index < |C| && s.index != i && Sightline(i, s.distance) in Links(P, length, C, s.index)
  {
    LinksMembers(P, length, C, i, s);
    LinksMembers(P, length, C, s.index, Sightline(i, s.distance));
  }

  /** Adding a corner leaves what earlier corners gathered unchanged. */
  lemma {:induction false} EarlierPrefix(P: Polygon, length: Point -> real, C: seq<Corner>, c: Corner, j: nat, n: nat)
    requires n <= j < |C|
    ensures Earlier(P, length, C + [c], j, n) == Earlier(P, length, C, j, n)
  {
    if n > 0 {
      EarlierPrefix(P, length, C, c, j, n - 1);
    }
  }

  lemma {:induction false} LaterPrefix(P: Polygon, length: Point -> real, C: seq<Corner>, c: Corner, i: nat, n: nat)
    requires i < n <= |C|
    ensures Later(P, length, C + [c], i, n) == Later(P, length, C, i, n)
  {
    if n > i + 1 {
      LaterPrefix(P, length, C, c, i, n - 1);
    }
  }

  /** The test of `AddWaypoint`, evaluating `Intersects` only when the angle
      test passes. */
  method SeesFrom(P: Polygon, c: Corner, w: Point) returns (sees: bool)
    requires AllNonEmpty(P)
    ensures sees == Sees(P, c, w)
  {
    var angle := w.Minus(c.point);
    sees := c.back.Cross(angle) <= 0 || angle.Cross(c.forward) <= 0;
    if sees {
      var hit := Intersects(P, w, c.point);
      sees := !hit;
    }
  }

  /** Appending corner c to C0 extends the list of each earlier waypoint i by
      at most the sightline to c, and the list of c by at most the sightline
      to i, both under the same test. */
  lemma LinkEquations(P: Polygon, length: Point -> real, C0: seq<Corner>, c: Corner, i: nat)
    requires i < |C0|
    ensures var C, end := C0 + [c], |C0|;
            var extra := Sees(P, c, C0[i].point);
            && Links(P, length, C, i) == Links(P, length, C0, i)
                 + (if extra then [Sightline(end, length(C0[i].point.Minus(c.point)))] else [])
            && Earlier(P, length, C, end, i + 1) == Earlier(P, length, C, end, i)
                 + (if extra then [Sightline(i, length(C0[i].point.Minus(c.point)))] else [])
  {
    EarlierPrefix(P, length, C0, c, i, i);
    LaterPrefix(P, length, C0, c, i, |C0|);
  }

  /** The state of `AddWaypoint` after joining corner c, the new last waypoint
      of wp, to the waypoints below i; wp0 is the list before the call. */
  ghost predicate Joining(P: Polygon, length: Point -> real, C0: seq<Corner>, c: Corner,
                          wp0: seq<Waypoint>, wp: seq<Waypoint>, i: nat)
  {
    var C, end := C0 + [c], |C0|;
    && |wp0| == end && |wp| == end + 1 && i <= end
    && (forall k :: 0 <= k < end ==> wp[k].(sightlines := []) == wp0[k].(sightlines := []))
    && (forall k :: 0 <= k < end ==> wp0[k].point == C0[k].point)
    && wp[end].(sightlines := []) == NewWaypoint(c.point)
    && (forall k :: 0 <= k < i ==> wp[k].sightlines == Links(P, length, C, k))
    && (forall k :: i <= k < end ==> wp[k].sightlines == Links(P, length, C0, k))
    && wp[end].sightlines == Earlier(P, length, C, end, i)
  }

  /** One round of the loop in `AddWaypoint`: if the new corner sees
      waypoint i, each of the two gets a sightline to the other. */
  method JoinStep(P: Polygon, length: Point -> real, ghost C0: seq<Corner>, c: Corner,
                  ghost wp0: seq<Waypoint>, wp: seq<Waypoint>, i: nat)
    returns (wp': seq<Waypoint>)
    requires AllNonEmpty(P) && Joining(P, length, C0, c, wp0, wp, i) && i < |C0|
    ensures Joining(P, length, C0, c, wp0, wp', i + 1)
  {
    var end := |wp| - 1;
    assert wp[i].point == C0[i].point by {
      assert wp[i].(sightlines := []) == wp0[i].(sightlines := []);
    }
    assert wp[end].point == c.point by {
      assert wp[end].(sightlines := []) == NewWaypoint(c.point);
    }
    var sees := SeesFrom(P, c, wp[i].point);
    wp' := wp;
    if sees {
      var distance := length(wp[i].point.Minus(c.point));
      wp' := wp'[i := wp'[i].(sightlines := wp'[i].sightlines + [Sightline(end, distance)])];
      wp' := wp'[end := wp'[end].(sightlines := wp'[end].sightlines + [Sightline(i, distance)])];
    }
    JoinUpdate(P, length, C0, c, wp0, wp, i, wp');
  }

  /** The update of one round of `AddWaypoint` keeps `Joining`. */
  lemma JoinUpdate(P: Polygon, length: Point -> real, C0: seq<Corner>, c: Corner,
                   wp0: seq<Waypoint>, wp: seq<Waypoint>, i: nat, wp': seq<Waypoint>)
    requires Joining(P, length, C0, c, wp0, wp, i) && i < |C0|
    requires var end, d := |C0|, length(C0[i].point.Minus(c.point));
             wp' == if Sees(P, c, C0[i].point)
                    then wp[i := wp[i].(sightlines := wp[i].sightlines + [Sightline(end, d)])]
                           [end := wp[end].(sightlines := wp[end].sightlines + [Sightline(i, d)])]
                    else wp
    ensures Joining(P, length, C0, c, wp0, wp', i + 1)
  {
    var C, end := C0 + [c], |C0|;
    LinkEquations(P, length, C0, c, i);
    forall k | 0 <= k < end ensures wp'[k].(sightlines := []) == wp0[k].(sightlines := []) {
      assert wp'[k].(sightlines := []) == wp[k].(sightlines := []);
    }
    assert wp'[end].(sightlines := []) == wp[end].(sightlines := []);
    forall k | 0 <= k < i + 1 ensures wp'[k].sightlines == Links(P, length, C, k) {
      if k < i {
        assert wp'[k] == wp[k];
      }
    }
    forall k | i + 1 <= k < end ensures wp'[k].sightlines == Links(P, length, C0, k) {
      assert wp'[k] == wp[k];
    }
  }

  lemma JoiningDone(P: Polygon, length: Point -> real, C0: seq<Corner>, c: Corner, wp0: seq<Waypoint>, wp: seq<Waypoint>)
    requires Joining(P, length, C0, c, wp0, wp, |C0|)
    ensures var C := C0 + [c];
            && |wp| == |C|
            && forall k :: 0 <= k < |wp| ==> wp[k].point == C[k].point && wp[k].sightlines == Links(P, length, C, k)
  {
    var C := C0 + [c];
    forall k | 0 <= k < |wp| ensures wp[k].point == C[k].point {
      if k < |C0| {
        assert wp[k].(sightlines := []) == wp0[k].(sightlines := []);
      } else {
        assert wp[k].(sightlines := []) == NewWaypoint(c.point);
      }
    }
  }

  // ---------------------------------------------------------------------
  // The closest vertex

  /** The vertices of every ring, ring by ring. */
  function Vertices(P: Polygon): seq<Point>
  {
    if P == [] then [] else Vertices(P[..|P| - 1]) + P[|P| - 1]
  }

  /** The vertex `ClosestVertex` settles on, or -1: the first vertex whose
      squared distance is minimal, provided it is below the starting bound
      `INT_MAX`. */
  function ClosestIndex(vs: seq<Point>, target: Point): (r: int)
    ensures -1 <= r < |vs|
    ensures r == -1 <==> forall k :: 0 <= k < |vs| ==> target.DistanceSquared(vs[k]) >= INT_MAX
    ensures r >= 0 ==> target.DistanceSquared(vs[r]) < INT_MAX
    ensures r >= 0 ==> forall k :: 0 <= k < |vs| ==>
              target.DistanceSquared(vs[r]) <= target.DistanceSquared(vs[k])
              && (k < r ==> target.DistanceSquared(vs[r]) < target.DistanceSquared(vs[k]))
  {
    if vs == [] then -1
    else
      var r := ClosestIndex(vs[..|vs| - 1], target);
      var e := target.DistanceSquared(vs[|vs| - 1]);
      if e < (if r == -1 then INT_MAX else target.DistanceSquared(vs[r])) then |vs| - 1 else r
  }

  /** The result of `ClosestVertex`: the chosen vertex, or (0, 0) if none. */
  function ClosestOf(P: Polygon, target: Point): Point
  {
    var vs := Vertices(P);
    var r := ClosestIndex(vs, target);
    if r == -1 then Origin() else vs[r]
  }

  /** The running best of `ClosestVertex` after the vertices vs: the chosen
      vertex and its squared distance, or the starting (0, 0) and `INT_MAX`. */
  function BestOf(vs: seq<Point>, target: Point): (Point, int)
  {
    var r := ClosestIndex(vs, target);
    if r == -1 then (Origin(), INT_MAX) else (vs[r], target.DistanceSquared(vs[r]))
  }

  /** One more vertex replaces the best exactly when it is strictly closer. */
  lemma BestSnoc(vs: seq<Point>, q: Point, target: Point)
    ensures var (p, d) := BestOf(vs, target);
            BestOf(vs + [q], target) == if target.DistanceSquared(q) < d then (q, target.DistanceSquared(q)) else (p, d)
  {
    assert (vs + [q])[..|vs|] == vs;
  }

  lemma VerticesSnoc(P: Polygon, i: nat)
    requires i < |P|
    ensures Vertices(P[..i + 1]) == Vertices(P[..i]) + P[i]
  {
    assert P[..i + 1][..i] == P[..i];
  }

  /** The inner loop of `ClosestVertex`, over the vertices of one part. */
  method ClosestInPart(part: Ring, target: Point, best0: Point, distance0: int, ghost done: seq<Point>)
    returns (bestPoint: Point, bestDistance: int)
    requires (best0, distance0) == BestOf(done, target)
    ensures (bestPoint, bestDistance) == BestOf(done + part, target)
  {
    bestPoint, bestDistance := best0, distance0;
    ghost var seen := done;
    for j := 0 to |part|
      invariant seen == done + part[..j]
      invariant (bestPoint, bestDistance) == BestOf(seen, target)
    {
      BestSnoc(seen, part[j], target);
      var distance := target.DistanceSquared(part[j]);
      if distance < bestDistance {
        bestDistance := distance;
        bestPoint := part[j];
      }
      assert part[..j + 1] == part[..j] + [part[j]];
      seen := seen + [part[j]];
    }
    assert part[..|part|] == part;
  }

  /** The target `Find` heads for: the given point when the region contains
      it, else the closest vertex of the region. */
  function Goal(P: Polygon, to: Point): Point
  {
    if PolygonContains(P, to) then to else ClosestOf(P, to)
  }

  // ---------------------------------------------------------------------
  // The search state

  /** An entry of the priority queue: total length including the remaining
      distance, waypoint, and the waypoint it was reached from. */
  datatype Node = Node(length: real, index: int, previous: int)

  /** `priority_queue::top`: an entry of least length. Equal lengths come
      out in an order the library leaves open; the model takes the earliest
      pushed. */
  function TopIndex(queue: seq<Node>): (r: nat)
    requires queue != []
    ensures r < |queue|
    ensures forall k :: 0 <= k < |queue| ==> queue[r].length <= queue[k].length
    ensures forall k :: 0 <= k < r ==> queue[k].length > queue[r].length
  {
    if |queue| == 1 then 0
    else
      var r := TopIndex(queue[..|queue| - 1]);
      if queue[|queue| - 1].length < queue[r].length then |queue| - 1 else r
  }

  /** `x < L`, where an infinite L exceeds every real. */
  predicate Shorter(x: real, L: Length)
  {
    L.Infinite? || x < L.value
  }

  /** The parts of a waypoint the search leaves alone. */
  function Fixed(w: Waypoint): Waypoint
  {
    w.(backtrack := -1, shortest := Infinite)
  }

  /** A waypoint list agrees with the corners and its sightlines go to
      joined waypoints with nonnegative lengths. */
  ghost predicate GraphOk(P: Polygon, C: seq<Corner>, wp: seq<Waypoint>)
  {
    |wp| == |C|
    && forall i :: 0 <= i < |wp| ==>
         wp[i].point == C[i].point
         && forall s :: s in wp[i].sightlines ==> s.index < |wp| && s.distance >= 0.0 && Linked(P, C, i, s.index)
  }

  /** The backtrack chains are well founded: each step goes to a waypoint
      with a shorter best path, or an equal one that was settled earlier. */
  ghost predicate Before(wp: seq<Waypoint>, stamp: seq<nat>, k: nat, i: nat)
    requires k < |wp| == |stamp| && i < |wp|
    requires wp[k].shortest.Finite? && wp[i].shortest.Finite?
  {
    wp[k].shortest.value < wp[i].shortest.value
    || (wp[k].shortest.value == wp[i].shortest.value && stamp[k] < stamp[i])
  }

  /** Every backtrack link points to a waypoint joined to this one and
      earlier on the path; a reached waypoint without a link was seen from
      the start point. */
  ghost predicate ChainsOk(P: Polygon, C: seq<Corner>, F: Point, wp: seq<Waypoint>, stamp: seq<nat>)
  {
    |wp| == |C| == |stamp|
    && forall i :: 0 <= i < |wp| ==>
         var b := wp[i].backtrack;
         (b != -1 ==> 0 <= b < |wp| && wp[i].shortest.Finite? && wp[b].shortest.Finite?
                      && Before(wp, stamp, b, i) && Linked(P, C, b, i))
         && (b == -1 && wp[i].shortest.Finite? ==> VisibleOf(P, F, C[i].point))
  }

  /** Each queued entry names a reached waypoint and overstates its best
      path by at most the remaining distance. */
  ghost predicate QueueOk(wp: seq<Waypoint>, queue: seq<Node>)
  {
    forall n :: n in queue ==>
      0 <= n.index < |wp| && wp[n.index].shortest.Finite?
      && wp[n.index].shortest.value <= n.length - wp[n.index].distance
  }

  ghost predicate StampsBelow(stamp: seq<nat>, counter: nat)
  {
    forall k :: 0 <= k < |stamp| ==> stamp[k] < counter
  }

  /** The search fields are all that changed between wp0 and wp. */
  ghost predicate SameGraph(wp0: seq<Waypoint>, wp: seq<Waypoint>)
  {
    |wp| == |wp0| && forall k :: 0 <= k < |wp| ==> Fixed(wp[k]) == Fixed(wp0[k])
  }

  /** A found route, from the waypoint nearest the goal back to the one
      nearest the start: the first sees the goal, the last is seen from the
      start, neighbours are joined by sightlines, and no waypoint repeats. */
  ghost predicate Route(P: Polygon, C: seq<Corner>, F: Point, goal: Point, chain: seq<nat>)
  {
    && |chain| > 0
    && (forall k :: 0 <= k < |chain| ==> chain[k] < |C|)
    && VisibleOf(P, C[chain[0]].point, goal)
    && (forall k :: 0 <= k < |chain| - 1 ==> Linked(P, C, chain[k], chain[k + 1]))
    && VisibleOf(P, F, C[chain[|chain| - 1]].point)
    && (forall a, b :: 0 <= a < b < |chain| ==> chain[a] != chain[b])
  }

  /** The route's waypoints in room coordinates. */
  function ChainPoints(C: seq<Corner>, chain: seq<nat>): (r: seq<Point>)
    requires forall k :: 0 <= k < |chain| ==> chain[k] < |C|
    ensures |r| == |chain| && forall k :: 0 <= k < |chain| ==> r[k] == C[chain[k]].point.Div(INTERNAL_SCALE)
  {
    if chain == [] then [] else ChainPoints(C, chain[..|chain| - 1]) + [C[chain[|chain| - 1]].point.Div(INTERNAL_SCALE)]
  }

  /** The waypoints with a shorter best path than waypoint i, or an equal
      one settled earlier: the measure that shrinks along a backtrack chain. */
  ghost function BelowSet(wp: seq<Waypoint>, stamp: seq<nat>, i: nat): set<nat>
    requires |wp| == |stamp| && i < |wp| && wp[i].shortest.Finite?
  {
    set k: nat | k < |wp| && wp[k].shortest.Finite? && Before(wp, stamp, k, i)
  }

  lemma BelowShrinks(wp: seq<Waypoint>, stamp: seq<nat>, k: nat, i: nat)
    requires k < |wp| == |stamp| && i < |wp|
    requires wp[k].shortest.Finite? && wp[i].shortest.Finite? && Before(wp, stamp, k, i)
    ensures |BelowSet(wp, stamp, k)| < |BelowSet(wp, stamp, i)|
  {
    var A, B := BelowSet(wp, stamp, k), BelowSet(wp, stamp, i);
    assert A <= B;
    var D := B - A;
    assert k in D;
    assert B == A + D && A * D == {};
  }

  /** What `GraphOk` asks of a waypoint list follows from the way the class
      keeps its sightlines. */
  lemma LinksGraph(P: Polygon, length: Point -> real, C: seq<Corner>, wp: seq<Waypoint>)
    requires forall v :: length(v) >= 0.0
    requires |wp| == |C|
    requires forall k :: 0 <= k < |wp| ==> wp[k].point == C[k].point && wp[k].sightlines == Links(P, length, C, k)
    ensures GraphOk(P, C, wp)
  {
    forall i, s | 0 <= i < |wp| && s in wp[i].sightlines
      ensures s.index < |wp| && s.distance >= 0.0 && Linked(P, C, i, s.index)
    {
      LinksMembers(P, length, C, i, s);
    }
  }

  lemma SameGraphOk(P: Polygon, C: seq<Corner>, wp0: seq<Waypoint>, wp: seq<Waypoint>)
    requires GraphOk(P, C, wp0) && SameGraph(wp0, wp)
    ensures GraphOk(P, C, wp)
  {
    forall i | 0 <= i < |wp|
      ensures wp[i].point == wp0[i].point && wp[i].sightlines == wp0[i].sightlines
    {
      assert Fixed(wp[i]) == Fixed(wp0[i]);
    }
  }

  /** The inner loop of the search: every waypoint in sight of `index` that
      the path through it reaches more cheaply takes that path and is queued. */
  method Relax(ghost P: Polygon, ghost C: seq<Corner>, ghost F: Point, wp0: seq<Waypoint>, queue0: seq<Node>,
               ghost stamp0: seq<nat>, ghost counter0: nat, index: nat, g: real)
    returns (wp: seq<Waypoint>, queue: seq<Node>, ghost stamp: seq<nat>, ghost counter: nat)
    requires GraphOk(P, C, wp0) && ChainsOk(P, C, F, wp0, stamp0) && QueueOk(wp0, queue0)
    requires StampsBelow(stamp0, counter0)
    requires index < |wp0| && wp0[index].shortest.Finite? && wp0[index].shortest.value <= g
    ensures SameGraph(wp0, wp) && ChainsOk(P, C, F, wp, stamp) && QueueOk(wp, queue)
    ensures StampsBelow(stamp, counter)
    ensures forall k :: 0 <= k < |wp| && wp0[k].shortest.Finite? ==> wp[k].shortest.Finite?
  {
    wp, queue, stamp, counter := wp0, queue0, stamp0, counter0;
    var links := wp0[index].sightlines;
    for k := 0 to |links|
      invariant SameGraph(wp0, wp) && ChainsOk(P, C, F, wp, stamp) && QueueOk(wp, queue)
      invariant StampsBelow(stamp, counter)
      invariant wp[index].shortest.Finite? && wp[index].shortest.value <= g
      invariant forall k :: 0 <= k < |wp| && wp0[k].shortest.Finite? ==> wp[k].shortest.Finite?
    {
      var s := links[k];
      assert s.index < |wp| && s.distance >= 0.0 && Linked(P, C, index, s.index);
      var next := wp[s.index];
      var length := g + s.distance;
      if !(next.shortest.Finite? && length >= next.shortest.value) {
        ghost var wpBefore, queueBefore, stampBefore := wp, queue, stamp;
        wp := wp[s.index := next.(shortest := Finite(length), backtrack := index)];
        stamp := stamp[s.index := counter];
        queue := queue + [Node(length + next.distance, s.index, index)];
        RelaxUpdate(P, C, F, wp0, wpBefore, queueBefore, stampBefore, counter, index, g, s.index, s.distance,
                    wp, queue, stamp);
        counter := counter + 1;
      }
    }
  }

  /** A shorter path to waypoint j through `index` keeps the search invariants. */
  lemma RelaxUpdate(P: Polygon, C: seq<Corner>, F: Point, wp0: seq<Waypoint>, wp: seq<Waypoint>, queue: seq<Node>,
                    stamp: seq<nat>, counter: nat, index: nat, g: real, j: nat, d: real,
                    wp': seq<Waypoint>, queue': seq<Node>, stamp': seq<nat>)
    requires SameGraph(wp0, wp) && ChainsOk(P, C, F, wp, stamp) && QueueOk(wp, queue) && StampsBelow(stamp, counter)
    requires forall k :: 0 <= k < |wp| && wp0[k].shortest.Finite? ==> wp[k].shortest.Finite?
    requires index < |wp| && wp[index].shortest.Finite? && wp[index].shortest.value <= g
    requires j < |wp| && d >= 0.0 && Linked(P, C, index, j)
    requires !(wp[j].shortest.Finite? && g + d >= wp[j].shortest.value)
    requires wp' == wp[j := wp[j].(shortest := Finite(g + d), backtrack := index)]
    requires stamp' == stamp[j := counter]
    requires queue' == queue + [Node(g + d + wp[j].distance, j, index)]
    ensures SameGraph(wp0, wp') && ChainsOk(P, C, F, wp', stamp') && QueueOk(wp', queue')
    ensures StampsBelow(stamp', counter + 1)
    ensures wp'[index].shortest.Finite? && wp'[index].shortest.value <= g
    ensures forall k :: 0 <= k < |wp'| && wp0[k].shortest.Finite? ==> wp'[k].shortest.Finite?
  {
    assert Fixed(wp'[j]) == Fixed(wp[j]);
    ChainsUpdate(P, C, F, wp, stamp, counter, index, g, j, d);
    forall n | n in queue'
      ensures 0 <= n.index < |wp'| && wp'[n.index].shortest.Finite?
              && wp'[n.index].shortest.value <= n.length - wp'[n.index].distance
    {
      if n in queue {
        assert 0 <= n.index < |wp| && wp[n.index].shortest.Finite?;
      }
    }
  }

  /** The backtrack links stay well founded when waypoint j gets the shorter
      path `g + d` through `index`. */
  lemma ChainsUpdate(P: Polygon, C: seq<Corner>, F: Point, wp: seq<Waypoint>, stamp: seq<nat>, counter: nat,
                     index: nat, g: real, j: nat, d: real)
    requires ChainsOk(P, C, F, wp, stamp) && StampsBelow(stamp, counter)
    requires index < |wp| && wp[index].shortest.Finite? && wp[index].shortest.value <= g
    requires j < |wp| && d >= 0.0 && Linked(P, C, index, j)
    requires !(wp[j].shortest.Finite? && g + d >= wp[j].shortest.value)
    ensures ChainsOk(P, C, F, wp[j := wp[j].(shortest := Finite(g + d), backtrack := index)], stamp[j := counter])
  {
    var wp' := wp[j := wp[j].(shortest := Finite(g + d), backtrack := index)];
    var stamp' := stamp[j := counter];
    forall i | 0 <= i < |wp'|
      ensures var b := wp'[i].backtrack;
              (b != -1 ==> 0 <= b < |wp'| && wp'[i].shortest.Finite? && wp'[b].shortest.Finite?
                           && Before(wp', stamp', b, i) && Linked(P, C, b, i))
              && (b == -1 && wp'[i].shortest.Finite? ==> VisibleOf(P, F, C[i].point))
    {
      if i == j {
        assert stamp'[index] == stamp[index] < counter;
      } else {
        var b := wp[i].backtrack;
        if b == j {
          assert wp[j].shortest.Finite? && wp'[j].shortest.value < wp[j].shortest.value;
        }
      }
    }
  }

  /** The main loop of `Find`: pop the shortest entry; a waypoint in sight of
      the goal ends a candidate path, any other is relaxed. The loop stops when
      the queue is empty or no entry is shorter than the best path found, or
      after `fuel` rounds. */
  method Search(ghost P: Polygon, ghost C: seq<Corner>, ghost F: Point, ghost goal: Point,
                wp0: seq<Waypoint>, queue0: seq<Node>, ghost stamp0: seq<nat>, ghost counter0: nat, fuel: nat)
    returns (wp: seq<Waypoint>, best: Node, ghost stamp: seq<nat>)
    requires GraphOk(P, C, wp0) && ChainsOk(P, C, F, wp0, stamp0) && QueueOk(wp0, queue0)
    requires StampsBelow(stamp0, counter0)
    requires forall k :: 0 <= k < |wp0| && wp0[k].visible ==> VisibleOf(P, C[k].point, goal)
    ensures SameGraph(wp0, wp) && ChainsOk(P, C, F, wp, stamp)
    ensures best.index == -1
            || (0 <= best.index < |wp| && wp[best.index].shortest.Finite? && VisibleOf(P, C[best.index].point, goal))
  {
    wp, stamp := wp0, stamp0;
    ghost var counter := counter0;
    var queue := queue0;
    var bestDistance := Infinite;
    best := Node(0.0, -1, -1);
    var steps := fuel;
    while steps > 0 && queue != [] && Shorter(queue[TopIndex(queue)].length, bestDistance)
      invariant SameGraph(wp0, wp) && ChainsOk(P, C, F, wp, stamp) && QueueOk(wp, queue)
      invariant StampsBelow(stamp, counter)
      invariant best.index == -1
                || (0 <= best.index < |wp| && wp[best.index].shortest.Finite? && VisibleOf(P, C[best.index].point, goal))
      decreases steps
    {
      steps := steps - 1;
      var t := TopIndex(queue);
      var node := queue[t];
      assert node in queue;
      ghost var was := queue;
      queue := queue[..t] + queue[t + 1..];
      assert forall n :: n in queue ==> n in was;
      assert Fixed(wp[node.index]) == Fixed(wp0[node.index]);
      if wp[node.index].visible {
        bestDistance := Finite(node.length);
        best := node;
      } else {
        node := node.(length := node.length - wp[node.index].distance);
        SameGraphOk(P, C, wp0, wp);
        ghost var before := wp;
        wp, queue, stamp, counter := Relax(P, C, F, wp, queue, stamp, counter, node.index, node.length);
        assert SameGraph(wp0, wp) by {
          forall k | 0 <= k < |wp| ensures Fixed(wp[k]) == Fixed(wp0[k]) {
            assert Fixed(wp[k]) == Fixed(before[k]);
          }
        }
      }
    }
  }

  /** The state of `Backtrack` with the waypoint i still to visit: the
      chain gathered so far runs from the best waypoint along backtrack links,
      each on a shorter path than the one before, and the path holds the
      goal and the chain's points. */
  ghost predicate Tracing(P: Polygon, C: seq<Corner>, wp: seq<Waypoint>, stamp: seq<nat>,
                          best: nat, goal: Point, path: seq<Point>, chain: seq<nat>, i: int)
    requires |wp| == |C| == |stamp|
  {
    && ChainShape(wp, best, chain, i)
    && path == [goal.Div(INTERNAL_SCALE)] + ChainPoints(C, chain)
    && ChainLinked(P, C, chain)
    && ChainBefore(wp, stamp, chain, i)
  }

  /** The chain starts at the best waypoint, names reached waypoints, and
      i is the backtrack link of its last one. */
  ghost predicate ChainShape(wp: seq<Waypoint>, best: nat, chain: seq<nat>, i: int) {
    && -1 <= i < |wp|
    && (i != -1 ==> wp[i].shortest.Finite?)
    && (forall k :: 0 <= k < |chain| ==> chain[k] < |wp| && wp[chain[k]].shortest.Finite?)
    && (chain == [] ==> i == best)
    && (chain != [] ==> chain[0] == best && i == wp[chain[|chain| - 1]].backtrack)
  }

  /** Consecutive waypoints of the chain are linked. */
  ghost predicate ChainLinked(P: Polygon, C: seq<Corner>, chain: seq<nat>)
    requires forall k :: 0 <= k < |chain| ==> chain[k] < |C|
  {
    forall k :: 0 <= k < |chain| - 1 ==> Linked(P, C, chain[k], chain[k + 1])
  }

  /** Each waypoint of the chain, and then i, comes before the ones ahead of it. */
  ghost predicate ChainBefore(wp: seq<Waypoint>, stamp: seq<nat>, chain: seq<nat>, i: int)
    requires |wp| == |stamp| && -1 <= i < |wp| && (i != -1 ==> wp[i].shortest.Finite?)
    requires forall k :: 0 <= k < |chain| ==> chain[k] < |wp| && wp[chain[k]].shortest.Finite?
  {
    && (forall a, b :: 0 <= a < b < |chain| ==> Before(wp, stamp, chain[b], chain[a]))
    && (i != -1 ==> forall a :: 0 <= a < |chain| ==> Before(wp, stamp, i, chain[a]))
  }

  /** Follows the backtrack links from the best waypoint to a waypoint seen
      from the start, pushing each one after the goal. */
  method Backtrack(ghost P: Polygon, ghost C: seq<Corner>, ghost F: Point, wp: seq<Waypoint>, ghost stamp: seq<nat>,
                   best: nat, goal: Point)
    returns (path: seq<Point>, ghost chain: seq<nat>)
    requires GraphOk(P, C, wp) && ChainsOk(P, C, F, wp, stamp)
    requires best < |wp| && wp[best].shortest.Finite? && VisibleOf(P, C[best].point, goal)
    ensures Route(P, C, F, goal, chain)
    ensures path == [goal.Div(INTERNAL_SCALE)] + ChainPoints(C, chain)
  {
    path := [goal.Div(INTERNAL_SCALE)];
    chain := [];
    var i: int := best;
    while i != -1
      invariant Tracing(P, C, wp, stamp, best, goal, path, chain, i)
      decreases if i == -1 then 0 else |BelowSet(wp, stamp, i)| + 1
    {
      path, chain, i := BacktrackStep(P, C, F, wp, stamp, best, goal, path, chain, i);
    }
    TracedRoute(P, C, F, wp, stamp, best, goal, path, chain);
  }

  /** One round of `Backtrack`: push waypoint i and move to its backtrack link. */
  method BacktrackStep(ghost P: Polygon, ghost C: seq<Corner>, ghost F: Point, wp: seq<Waypoint>, ghost stamp: seq<nat>,
                       ghost best: nat, ghost goal: Point, path: seq<Point>, ghost chain: seq<nat>, i: int)
    returns (path': seq<Point>, ghost chain': seq<nat>, i': int)
    requires GraphOk(P, C, wp) && ChainsOk(P, C, F, wp, stamp)
    requires Tracing(P, C, wp, stamp, best, goal, path, chain, i) && i != -1
    ensures Tracing(P, C, wp, stamp, best, goal, path', chain', i')
    ensures chain' == chain + [i]
    ensures i' == -1 || |BelowSet(wp, stamp, i')| < |BelowSet(wp, stamp, i)|
  {
    path' := path + [wp[i].point.Div(INTERNAL_SCALE)];
    chain' := chain + [i];
    i' := wp[i].backtrack;
    TracingStep(P, C, F, wp, stamp, best, goal, path, chain, i);
  }

  /** The proof of one `BacktrackStep`, clause by clause of `Tracing`. */
  lemma TracingStep(P: Polygon, C: seq<Corner>, F: Point, wp: seq<Waypoint>, stamp: seq<nat>,
                    best: nat, goal: Point, path: seq<Point>, chain: seq<nat>, i: nat)
    requires GraphOk(P, C, wp) && ChainsOk(P, C, F, wp, stamp)
    requires Tracing(P, C, wp, stamp, best, goal, path, chain, i)
    ensures Tracing(P, C, wp, stamp, best, goal, path + [wp[i].point.Div(INTERNAL_SCALE)], chain + [i], wp[i].backtrack)
    ensures wp[i].backtrack == -1 || |BelowSet(wp, stamp, wp[i].backtrack)| < |BelowSet(wp, stamp, i)|
  {
    var c := chain + [i];
    var b := wp[i].backtrack;
    assert ChainShape(wp, best, c, b);
    assert c[..|c| - 1] == chain;
    assert wp[i].point == C[i].point;
    assert ChainPoints(C, c) == ChainPoints(C, chain) + [C[i].point.Div(INTERNAL_SCALE)];
    LinkedStep(P, C, F, wp, stamp, chain, i);
    if b != -1 {
      ChainStep(P, C, F, wp, stamp, i, chain);
    }
    BeforeStep(wp, stamp, chain, i);
  }

  /** The link from the chain's last waypoint to its backtrack link. */
  lemma LinkedStep(P: Polygon, C: seq<Corner>, F: Point, wp: seq<Waypoint>, stamp: seq<nat>, chain: seq<nat>, i: nat)
    requires ChainsOk(P, C, F, wp, stamp) && i < |wp|
    requires forall k :: 0 <= k < |chain| ==> chain[k] < |wp|
    requires chain != [] ==> i == wp[chain[|chain| - 1]].backtrack
    requires ChainLinked(P, C, chain)
    ensures ChainLinked(P, C, chain + [i])
  {
    var c := chain + [i];
    forall k | 0 <= k < |c| - 1 ensures Linked(P, C, c[k], c[k + 1]) {
      if k == |chain| - 1 {
        assert c[k] == chain[k] && c[k + 1] == i;
      } else {
        assert c[k] == chain[k] && c[k + 1] == chain[k + 1];
      }
    }
  }

  /** Adding waypoint i keeps each waypoint of the chain before those ahead of it. */
  lemma BeforeStep(wp: seq<Waypoint>, stamp: seq<nat>, chain: seq<nat>, i: nat)
    requires |wp| == |stamp| && i < |wp| && wp[i].shortest.Finite?
    requires forall k :: 0 <= k < |chain| ==> chain[k] < |wp| && wp[chain[k]].shortest.Finite?
    requires ChainBefore(wp, stamp, chain, i)
    ensures forall x, y :: 0 <= x < y < |chain + [i]| ==> Before(wp, stamp, (chain + [i])[y], (chain + [i])[x])
  {
    var c := chain + [i];
    forall x, y | 0 <= x < y < |c| ensures Before(wp, stamp, c[y], c[x]) {
      if y == |chain| {
        assert c[y] == i && c[x] == chain[x];
      } else {
        assert c[y] == chain[y] && c[x] == chain[x];
      }
    }
  }

  /** When the links run out, the chain is a route. */
  lemma TracedRoute(P: Polygon, C: seq<Corner>, F: Point, wp: seq<Waypoint>, stamp: seq<nat>,
                    best: nat, goal: Point, path: seq<Point>, chain: seq<nat>)
    requires GraphOk(P, C, wp) && ChainsOk(P, C, F, wp, stamp)
    requires best < |wp| && wp[best].shortest.Finite? && VisibleOf(P, C[best].point, goal)
    requires Tracing(P, C, wp, stamp, best, goal, path, chain, -1)
    ensures Route(P, C, F, goal, chain)
  {
    var last := chain[|chain| - 1];
    assert wp[last].backtrack == -1 && wp[last].shortest.Finite?;
    forall a, b | 0 <= a < b < |chain| ensures chain[a] != chain[b] {
      assert Before(wp, stamp, chain[b], chain[a]);
    }
  }

  /** One step along a backtrack link keeps the chain's invariants and
      shrinks the measure. */
  lemma ChainStep(P: Polygon, C: seq<Corner>, F: Point, wp: seq<Waypoint>, stamp: seq<nat>, i: nat, chain: seq<nat>)
    requires ChainsOk(P, C, F, wp, stamp) && i < |wp| && wp[i].shortest.Finite? && wp[i].backtrack != -1
    requires forall k :: 0 <= k < |chain| ==> chain[k] < |wp| && wp[chain[k]].shortest.Finite?
    requires forall a :: 0 <= a < |chain| ==> Before(wp, stamp, i, chain[a])
    ensures var b := wp[i].backtrack;
            && 0 <= b < |wp| && wp[b].shortest.Finite? && Linked(P, C, i, b)
            && |BelowSet(wp, stamp, b)| < |BelowSet(wp, stamp, i)|
            && (forall a :: 0 <= a < |chain| + 1 ==> Before(wp, stamp, b, (chain + [i])[a]))
  {
    var b := wp[i].backtrack;
    BelowShrinks(wp, stamp, b, i);
  }

  // ---------------------------------------------------------------------
  // The pathfinder

  /** The rings `Init` adds, in order: those of every non-empty mask,
      scaled to internal coordinates. */
  function MaskRings(masks: seq<Polygon>): (rings: Polygon)
    ensures (forall m :: 0 <= m < |masks| ==> AllNonEmpty(masks[m])) ==> AllNonEmpty(rings)
    ensures (forall m :: 0 <= m < |masks| ==> masks[m] == []) ==> rings == []
  {
    if masks == [] then []
    else
      var last := masks[|masks| - 1];
      MaskRings(masks[..|masks| - 1]) + (if last != [] then ScalePolygon(last, INTERNAL_SCALE) else [])
  }

  /** `stages` is the run of `Add` over `rings` from the empty polygon:
      stage k + 1 is stage k with ring k added. */
  ghost predicate AddStages(rings: Polygon, stages: seq<Polygon>)
  {
    && |stages| == |rings| + 1 && stages[0] == []
    && forall k :: 0 <= k < |rings| ==> AddResult(stages[k], rings[k], stages[k + 1])
  }

  /** A run of `Add` over one more ring extends the stages by its result. */
  lemma AddStagesSnoc(rings: Polygon, stages: seq<Polygon>, ring: Ring, next: Polygon)
    requires AddStages(rings, stages) && AddResult(stages[|stages| - 1], ring, next)
    ensures AddStages(rings + [ring], stages + [next])
  {
    var rs, ss := rings + [ring], stages + [next];
    forall k | 0 <= k < |rs|
      ensures AddResult(ss[k], rs[k], ss[k + 1])
    {
      if k < |rings| {
        assert ss[k] == stages[k] && ss[k + 1] == stages[k + 1] && rs[k] == rings[k];
      }
    }
  }

  /** The mask loop of `Init`: every ring of every non-empty mask, scaled to
      internal coordinates, merged with `Polygons.Add` in order. `stages`
      holds the polygon before and after each `Add`. */
  method Merge(masks: seq<Polygon>) returns (merged: Polygon, ghost stages: seq<Polygon>)
    requires forall m :: 0 <= m < |masks| ==> AllNonEmpty(masks[m])
    ensures AllNonEmpty(merged)
    ensures AddStages(MaskRings(masks), stages) && merged == stages[|stages| - 1]
    ensures (forall m :: 0 <= m < |masks| ==> masks[m] == []) ==> merged == []
  {
    merged, stages := [], [[]];
    for m := 0 to |masks|
      invariant AllNonEmpty(merged)
      invariant AddStages(MaskRings(masks[..m]), stages) && merged == stages[|stages| - 1]
    {
      merged, stages := MergeStep(masks, m, merged, stages);
    }
    assert masks[..|masks|] == masks;
  }

  /** One turn of `Init`'s mask loop: the rings of mask m, if it is not
      empty, are added after those of the masks before it. */
  method MergeStep(masks: seq<Polygon>, m: nat, merged: Polygon, ghost stages: seq<Polygon>)
    returns (merged': Polygon, ghost stages': seq<Polygon>)
    requires m < |masks| && AllNonEmpty(masks[m]) && AllNonEmpty(merged)
    requires AddStages(MaskRings(masks[..m]), stages) && merged == stages[|stages| - 1]
    ensures AllNonEmpty(merged')
    ensures AddStages(MaskRings(masks[..m + 1]), stages') && merged' == stages'[|stages'| - 1]
  {
    MaskRingsSnoc(masks, m);
    if masks[m] != [] {
      var mask := ScalePolygon(masks[m], INTERNAL_SCALE);
      merged', stages' := MergeMask(MaskRings(masks[..m]), mask, merged, stages);
    } else {
      merged', stages' := merged, stages;
      assert MaskRings(masks[..m]) + [] == MaskRings(masks[..m]);
    }
  }

  /** The rings of the first m + 1 masks are those of the first m and then
      those of mask m. */
  lemma MaskRingsSnoc(masks: seq<Polygon>, m: nat)
    requires m < |masks|
    ensures MaskRings(masks[..m + 1]) ==
            MaskRings(masks[..m]) + (if masks[m] != [] then ScalePolygon(masks[m], INTERNAL_SCALE) else [])
  {
    assert masks[..m + 1][..m] == masks[..m];
  }

  /** The inner loop of `Init`'s mask loop: each ring of one scaled mask is
      added in turn. */
  method MergeMask(ghost before: Polygon, mask: Polygon, merged: Polygon, ghost stages: seq<Polygon>)
    returns (merged': Polygon, ghost stages': seq<Polygon>)
    requires AllNonEmpty(mask) && AllNonEmpty(merged)
    requires AddStages(before, stages) && merged == stages[|stages| - 1]
    ensures AllNonEmpty(merged')
    ensures AddStages(before + mask, stages') && merged' == stages'[|stages'| - 1]
  {
    merged', stages' := merged, stages;
    for r := 0 to |mask|
      invariant AllNonEmpty(merged')
      invariant AddStages(before + mask[..r], stages') && merged' == stages'[|stages'| - 1]
    {
      assert (before + mask[..r]) + [mask[r]] == before + mask[..r + 1];
      var next := Add(merged', mask[r]);
      AddStagesSnoc(before + mask[..r], stages', mask[r], next);
      merged', stages' := next, stages' + [next];
    }
    assert mask[..|mask|] == mask;
  }

  /** Appending a fresh waypoint, touching only sightlines, keeps every
      waypoint untouched. */
  lemma UntouchedKept(before: seq<Waypoint>, after: seq<Waypoint>, vertex: Point)
    requires forall k :: 0 <= k < |before| ==> Untouched(before[k])
    requires |after| == |before| + 1
    requires forall k :: 0 <= k < |before| ==> after[k].(sightlines := []) == before[k].(sightlines := [])
    requires after[|before|].(sightlines := []) == NewWaypoint(vertex)
    ensures forall k :: 0 <= k < |after| ==> Untouched(after[k])
  {
    forall k | 0 <= k < |after|
      ensures Untouched(after[k])
    {
      if k < |before| {
        assert Untouched(before[k].(sightlines := []));
      }
    }
  }

  class Paths {
    /** The region the avatar can walk in, in internal coordinates. */
    var passable: Polygon
    var waypoints: seq<Waypoint>
    /** The corner each waypoint was added with. */
    ghost var corners: seq<Corner>
    /** The merged masks before `Init` cut them down to one component. */
    ghost var region: Polygon
    /** `Point::Length`: the length of a vector. */
    const length: Point -> real

    ghost predicate Valid()
      reads this
    {
      && AllNonEmpty(passable)
      && (forall v :: length(v) >= 0.0)
      && |waypoints| == |corners|
      && forall k :: 0 <= k < |waypoints| ==>
           waypoints[k].point == corners[k].point && waypoints[k].sightlines == Links(passable, length, corners, k)
    }

    constructor (length: Point -> real)
      requires forall v :: length(v) >= 0.0
      ensures Valid() && passable == [] && waypoints == [] && region == [] && this.length == length
    {
      this.length := length;
      passable := [];
      waypoints := [];
      corners := [];
      region := [];
    }

    /** `Visible(from, to)`. */
    method Visible(from: Point, to: Point) returns (b: bool)
      requires AllNonEmpty(passable)
      ensures b == VisibleOf(passable, from, to)
    {
      var hit := Intersects(passable, from, to);
      if hit {
        return false;
      }
      b := Polygons.Contains(passable, Midpoint(from, to));
    }

    /** `ClosestVertex(target)`: the first vertex of least squared distance,
        or (0, 0) when no distance is below `INT_MAX`. */
    method ClosestVertex(target: Point) returns (bestPoint: Point)
      ensures bestPoint == ClosestOf(passable, target)
    {
      var bestDistance := INT_MAX;
      bestPoint := Point(0, 0);
      for i := 0 to |passable|
        invariant (bestPoint, bestDistance) == BestOf(Vertices(passable[..i]), target)
      {
        VerticesSnoc(passable, i);
        bestPoint, bestDistance := ClosestInPart(passable[i], target, bestPoint, bestDistance, Vertices(passable[..i]));
      }
      assert passable[..|passable|] == passable;
    }

    /** `Init(room, point)`: the masks of the room's sprites, scaled to
        internal coordinates and merged ring by ring with `Add`, cut down by
        `FloodFill` to the component around the avatar; then a waypoint for
        every waypoint corner of every ring of at least three vertices. The
        room's sprites are passed in as their masks, in the room's order;
        `stages` is the run of `Add` that builds `region`. */
    method Init(masks: seq<Polygon>, point: Point) returns (ghost stages: seq<Polygon>)
      requires Valid()
      requires forall m :: 0 <= m < |masks| ==> AllNonEmpty(masks[m])
      modifies this
      ensures Valid()
      ensures AddStages(MaskRings(masks), stages) && region == stages[|stages| - 1]
      ensures AllNonEmpty(region) && passable == FloodFillOf(region, point.Times(INTERNAL_SCALE))
      ensures (forall m :: 0 <= m < |masks| ==> masks[m] == []) ==> region == [] && passable == []
      ensures corners == CornersOf(passable)
      ensures forall k :: 0 <= k < |waypoints| ==> Untouched(waypoints[k])
    {
      passable := [];
      waypoints := [];
      corners := [];
      var merged;
      merged, stages := Merge(masks);
      region := merged;
      passable := FloodFill(merged, point.Times(INTERNAL_SCALE));
      AddCorners();
    }

    /** The waypoint walk of `Init` over every ring of the passable area. */
    method AddCorners()
      requires AllNonEmpty(passable) && (forall v :: length(v) >= 0.0) && waypoints == [] && corners == []
      modifies this
      ensures Valid() && passable == old(passable) && region == old(region)
      ensures corners == CornersOf(passable)
      ensures forall k :: 0 <= k < |waypoints| ==> Untouched(waypoints[k])
    {
      for i := 0 to |passable|
        invariant Valid() && passable == old(passable) && region == old(region)
        invariant corners == CornersOf(passable[..i])
        invariant forall k :: 0 <= k < |waypoints| ==> Untouched(waypoints[k])
      {
        AddRingWaypoints(passable[i]);
        assert passable[..i + 1][..i] == passable[..i];
      }
      assert passable[..|passable|] == passable;
    }

    /** The walk over one ring in `Init`, starting at the last vertex. */
    method AddRingWaypoints(part: Ring)
      requires Valid() && forall k :: 0 <= k < |waypoints| ==> Untouched(waypoints[k])
      modifies this
      ensures Valid() && passable == old(passable) && region == old(region)
      ensures corners == old(corners) + RingCorners(part)
      ensures forall k :: 0 <= k < |waypoints| ==> Untouched(waypoints[k])
    {
      if |part| < 3 {
        return;
      }
      var n := |part|;
      var prev := part[n - 2];
      var here := part[n - 1];
      for j := 0 to n
        invariant here == (if j == 0 then part[n - 1] else part[j - 1])
        invariant prev == (if j == 0 then part[n - 2] else if j == 1 then part[n - 1] else part[j - 2])
        invariant Valid() && passable == old(passable) && region == old(region)
        invariant corners == old(corners) + RingCornersUpTo(part, j)
        invariant forall k :: 0 <= k < |waypoints| ==> Untouched(waypoints[k])
      {
        var next := part[j];
        assert CornerAt(part, j) == Corner(here, prev.Minus(here), next.Minus(here));
        AddCorner(here, prev.Minus(here), next.Minus(here));
        prev := here;
        here := next;
      }
    }

    /** One step of the walk: a corner becomes a waypoint when it passes
        the waypoint test. */
    method AddCorner(here: Point, back: Point, forward: Point)
      requires Valid() && forall k :: 0 <= k < |waypoints| ==> Untouched(waypoints[k])
      modifies this
      ensures Valid() && passable == old(passable) && region == old(region)
      ensures var c := Corner(here, back, forward);
              corners == old(corners) + (if IsWaypoint(c) then [c] else [])
      ensures forall k :: 0 <= k < |waypoints| ==> Untouched(waypoints[k])
    {
      if back.Cross(forward) >= 0 {
        ghost var before := waypoints;
        AddWaypoint(here, back, forward);
        UntouchedKept(before, waypoints, here);
      }
    }

    /** `AddWaypoint(vertex, back, forward)`: appends a waypoint and joins it
        to every earlier waypoint it sees, on both sides with the same length. */
    method AddWaypoint(vertex: Point, back: Point, forward: Point)
      requires Valid()
      modifies this
      ensures Valid()
      ensures passable == old(passable) && region == old(region)
      ensures corners == old(corners) + [Corner(vertex, back, forward)]
      ensures |waypoints| == |old(waypoints)| + 1
      ensures forall k :: 0 <= k < |old(waypoints)| ==>
                waypoints[k].(sightlines := []) == old(waypoints[k]).(sightlines := [])
      ensures waypoints[|old(waypoints)|].(sightlines := []) == NewWaypoint(vertex)
    {
      var end := |waypoints|;
      var c := Corner(vertex, back, forward);
      var wp := waypoints + [NewWaypoint(vertex)];
      for i := 0 to end
        invariant passable == old(passable) && corners == old(corners) && waypoints == old(waypoints) && region == old(region)
        invariant Joining(passable, length, corners, c, waypoints, wp, i)
      {
        wp := JoinStep(passable, length, corners, c, waypoints, wp, i);
      }
      ghost var C := corners + [c];
      JoiningDone(passable, length, corners, c, waypoints, wp);
      waypoints := wp;
      corners := C;
    }

    /** `CalculateDistances(target)`: every waypoint learns its distance to
        the target and whether it sees it, and forgets the last search. */
    method CalculateDistances(target: Point)
      requires Valid()
      modifies this
      ensures Valid() && passable == old(passable) && corners == old(corners) && region == old(region)
      ensures |waypoints| == |old(waypoints)|
      ensures forall k :: 0 <= k < |waypoints| ==> waypoints[k] == Measured(passable, length, old(waypoints[k]), target)
    {
      ghost var wp0 := waypoints;
      for i := 0 to |waypoints|
        invariant passable == old(passable) && corners == old(corners) && region == old(region)
        invariant |waypoints| == |wp0|
        invariant forall k :: 0 <= k < i ==> waypoints[k] == Measured(passable, length, wp0[k], target)
        invariant forall k :: i <= k < |waypoints| ==> waypoints[k] == wp0[k]
      {
        var w := waypoints[i];
        var visible := Visible(w.point, target);
        waypoints := waypoints[i := w.(distance := length(w.point.Minus(target)), visible := visible,
                                       backtrack := -1, shortest := Infinite)];
      }
    }

    /** The first loop of the search: every waypoint seen from the start gets
        a path of its own length straight from the start, and is queued. */
    method Seed(from: Point, wp0: seq<Waypoint>) returns (wp: seq<Waypoint>, queue: seq<Node>)
      requires AllNonEmpty(passable)
      ensures |wp| == |wp0| && |queue| <= |wp|
      ensures forall k :: 0 <= k < |wp| ==>
                wp[k] == if VisibleOf(passable, from, wp0[k].point)
                         then wp0[k].(backtrack := -1, shortest := Finite(length(wp0[k].point.Minus(from))))
                         else wp0[k]
      ensures QueueOk(wp, queue)
    {
      wp := wp0;
      queue := [];
      for i := 0 to |wp0|
        invariant |wp| == |wp0| && |queue| <= i
        invariant forall k :: 0 <= k < i ==>
                    wp[k] == if VisibleOf(passable, from, wp0[k].point)
                             then wp0[k].(backtrack := -1, shortest := Finite(length(wp0[k].point.Minus(from))))
                             else wp0[k]
        invariant forall k :: i <= k < |wp| ==> wp[k] == wp0[k]
        invariant forall n :: n in queue ==> n.index < i
        invariant QueueOk(wp, queue)
      {
        var visible := Visible(from, wp[i].point);
        if visible {
          var distance := length(wp[i].point.Minus(from));
          queue := queue + [Node(distance + wp[i].distance, i, -1)];
          wp := wp[i := wp[i].(backtrack := -1, shortest := Finite(distance))];
        }
      }
    }

    /** `Find(from, to)`: the waypoints to walk through, in stack order (the
        target first, the first waypoint to visit last), in room coordinates.
        A target outside the region is replaced by the closest vertex; a
        target in direct sight is returned alone. Otherwise the result is a
        route found by A*, or empty. The search runs for at most `fuel` rounds. */
    method Find(from: Point, to: Point, fuel: nat) returns (path: seq<Point>, ghost chain: seq<nat>)
      requires Valid()
      modifies this
      ensures Valid() && passable == old(passable) && corners == old(corners) && region == old(region)
      ensures passable == [] ==> path == []
      ensures passable != [] ==>
                var F, goal := from.Times(INTERNAL_SCALE), Goal(passable, to.Times(INTERNAL_SCALE));
                && (VisibleOf(passable, F, goal) ==> path == [goal.Div(INTERNAL_SCALE)])
                && (!VisibleOf(passable, F, goal) && path != [] ==>
                      Route(passable, corners, F, goal, chain)
                      && path == [goal.Div(INTERNAL_SCALE)] + ChainPoints(corners, chain))
    {
      chain := [];
      if passable == [] {
        path := [];
        return;
      }
      var F := from.Times(INTERNAL_SCALE);
      var T := to.Times(INTERNAL_SCALE);
      var inside := Polygons.Contains(passable, T);
      if !inside {
        T := ClosestVertex(T);
      }
      var direct := Visible(F, T);
      if direct {
        path := [T.Div(INTERNAL_SCALE)];
        return;
      }
      path, chain := SearchRoute(F, T, fuel);
    }

    /** The A* part of `Find`, from F to the goal T in internal coordinates. */
    method SearchRoute(F: Point, T: Point, fuel: nat) returns (path: seq<Point>, ghost chain: seq<nat>)
      requires Valid()
      modifies this
      ensures Valid() && passable == old(passable) && corners == old(corners) && region == old(region)
      ensures path != [] ==> Route(passable, corners, F, T, chain) && path == [T.Div(INTERNAL_SCALE)] + ChainPoints(corners, chain)
    {
      chain := [];
      CalculateDistances(T);
      LinksGraph(passable, length, corners, waypoints);
      ghost var measured := waypoints;
      var wp, queue := Seed(F, waypoints);
      ghost var stamp: seq<nat> := seq(|wp|, _ => 0);
      SeededChains(passable, length, corners, F, measured, wp, stamp);
      var best;
      wp, best, stamp := Search(passable, corners, F, T, wp, queue, stamp, 1, fuel);
      waypoints := wp;
      forall k | 0 <= k < |waypoints|
        ensures waypoints[k].point == corners[k].point && waypoints[k].sightlines == Links(passable, length, corners, k)
      {
        assert Fixed(wp[k]) == Fixed(measured[k]);
      }
      if best.index < 0 {
        path := [];
        return;
      }
      path, chain := Backtrack(passable, corners, F, wp, stamp, best.index, T);
    }
  }

  /** A waypoint as `CalculateDistances` leaves it. */
  function Measured(P: Polygon, length: Point -> real, w: Waypoint, target: Point): Waypoint
  {
    w.(distance := length(w.point.Minus(target)), visible := VisibleOf(P, w.point, target),
       backtrack := -1, shortest := Infinite)
  }

  /** Right after `Seed`, every backtrack link is empty and every reached
      waypoint was seen from the start. */
  lemma SeededChains(P: Polygon, length: Point -> real, C: seq<Corner>, F: Point, wp0: seq<Waypoint>, wp: seq<Waypoint>, stamp: seq<nat>)
    requires GraphOk(P, C, wp0) && |wp| == |wp0| == |stamp| == |C|
    requires forall k :: 0 <= k < |wp0| ==> wp0[k].backtrack == -1 && wp0[k].shortest == Infinite
    requires forall k :: 0 <= k < |wp| ==>
               wp[k] == if VisibleOf(P, F, wp0[k].point)
                        then wp0[k].(backtrack := -1, shortest := Finite(length(wp0[k].point.Minus(F))))
                        else wp0[k]
    ensures ChainsOk(P, C, F, wp, stamp) && SameGraph(wp0, wp) && GraphOk(P, C, wp)
  {
    SameGraphOk(P, C, wp0, wp);
  }
}
