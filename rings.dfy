// A ring: a simple polygon given by its vertices, the last one implicitly
// joined to the first. Area is kept as the exact doubled shoelace sum.
module Rings {
  import opened Ints
  import opened Points
  import opened Edges

  type Ring = seq<Point>

  // ---------------------------------------------------------------------
  // Translate and scale (`+ - * /` and their compound forms)

  /** `ring + offset`: every vertex moved by `offset`, the size kept. */
  function Translate(ring: Ring, offset: Point): (r: Ring)
    ensures |r| == |ring|
    ensures forall i :: 0 <= i < |ring| ==> r[i] == ring[i].Plus(offset)
  {
    if ring == [] then [] else [ring[0].Plus(offset)] + Translate(ring[1..], offset)
  }

  /** `ring * scale`: every vertex scaled, the size kept. */
  function Scale(ring: Ring, scale: int): (r: Ring)
    ensures |r| == |ring|
    ensures forall i :: 0 <= i < |ring| ==> r[i] == ring[i].Times(scale)
  {
    if ring == [] then [] else [ring[0].Times(scale)] + Scale(ring[1..], scale)
  }

  /** `ring / scale`: every vertex divided with truncation, the size kept. */
  function Divide(ring: Ring, scale: int): (r: Ring)
    requires scale != 0
    ensures |r| == |ring|
    ensures forall i :: 0 <= i < |ring| ==> r[i] == ring[i].Div(scale)
  {
    if ring == [] then [] else [ring[0].Div(scale)] + Divide(ring[1..], scale)
  }

  /** `-` is `+` of the negated offset, so the two undo each other. */
  lemma TranslateBack(ring: Ring, offset: Point)
    ensures Translate(Translate(ring, offset), offset.Neg()) == ring
  {
    var r := Translate(Translate(ring, offset), offset.Neg());
    forall i | 0 <= i < |ring| ensures r[i] == ring[i] {
      PlusMinus(ring[i], offset);
    }
  }

  /** Scaling by `k` and then dividing by `k` is the identity. */
  lemma ScaleThenDivide(ring: Ring, k: int)
    requires k != 0
    ensures Divide(Scale(ring, k), k) == ring
  {
    var r := Divide(Scale(ring, k), k);
    forall i | 0 <= i < |ring| ensures r[i] == ring[i] {
      ScaleDivide(ring[i], k);
    }
  }

  /** `+=` (and `-=` with the negated offset), in place. */
  method TranslateInPlace(a: array<Point>, offset: Point)
    modifies a
    ensures a[..] == Translate(old(a[..]), offset)
  {
    var i := 0;
    while i < a.Length
      invariant 0 <= i <= a.Length
      invariant forall k :: 0 <= k < i ==> a[k] == old(a[k]).Plus(offset)
      invariant forall k :: i <= k < a.Length ==> a[k] == old(a[k])
    {
      a[i] := a[i].Plus(offset);
      i := i + 1;
    }
  }

  /** `-=`: translation by the negated offset. */
  method SubtractInPlace(a: array<Point>, offset: Point)
    modifies a
    ensures a[..] == Translate(old(a[..]), offset.Neg())
  {
    TranslateInPlace(a, offset.Neg());
  }

  /** `*=`, in place. */
  method ScaleInPlace(a: array<Point>, scale: int)
    modifies a
    ensures a[..] == Scale(old(a[..]), scale)
  {
    var i := 0;
    while i < a.Length
      invariant 0 <= i <= a.Length
      invariant forall k :: 0 <= k < i ==> a[k] == old(a[k]).Times(scale)
      invariant forall k :: i <= k < a.Length ==> a[k] == old(a[k])
    {
      a[i] := a[i].Times(scale);
      i := i + 1;
    }
  }

  /** `/=`, in place. */
  method DivideInPlace(a: array<Point>, scale: int)
    requires scale != 0
    modifies a
    ensures a[..] == Divide(old(a[..]), scale)
  {
    var i := 0;
    while i < a.Length
      invariant 0 <= i <= a.Length
      invariant forall k :: 0 <= k < i ==> a[k] == old(a[k]).Div(scale)
      invariant forall k :: i <= k < a.Length ==> a[k] == old(a[k])
    {
      a[i] := a[i].Div(scale);
      i := i + 1;
    }
  }

  // ---------------------------------------------------------------------
  // Reverse

  function Reversed(s: Ring): (r: Ring)
    ensures |r| == |s|
    ensures forall i :: 0 <= i < |s| ==> r[i] == s[|s| - 1 - i]
  {
    if s == [] then [] else Reversed(s[1..]) + [s[0]]
  }

  /** `Reverse`: the vertex order reversed in place. */
  method ReverseInPlace(a: array<Point>)
    modifies a
    ensures a[..] == Reversed(old(a[..]))
  {
    var n := a.Length;
    var i := 0;
    while i < n / 2
      invariant 0 <= i <= n / 2
      invariant forall k :: 0 <= k < i ==> a[k] == old(a[n - 1 - k]) && a[n - 1 - k] == old(a[k])
      invariant forall k :: i <= k < n - i ==> a[k] == old(a[k])
    {
      a[i], a[n - 1 - i] := a[n - 1 - i], a[i];
      i := i + 1;
    }
  }

  // ---------------------------------------------------------------------
  // Area

  /** Sum of `Start().Cross(End())` over the first k edges. */
  function AreaUpTo(ring: Ring, k: nat): int
    requires k <= |ring|
  {
    if k == 0 then 0 else AreaUpTo(ring, k - 1) + StartAt(ring, k - 1).Cross(EndAt(ring, k - 1))
  }

  /** Twice the signed area, summed over the edge loop as the source does. */
  function Area2(ring: Ring): int
  {
    AreaUpTo(ring, |ring|)
  }

  /** A hole is a ring with negative area. */
  predicate IsHole(ring: Ring)
  {
    Area2(ring) < 0
  }

  /** `Area()` (doubled): the edge loop of the source, accumulating the cross
      product of each edge's end points. */
  method DoubledArea(ring: Ring) returns (area: int)
    requires |ring| > 0
    ensures area == Area2(ring)
  {
    var edge := new Edge(ring);
    area := 0;
    while edge.HasEdge()
      invariant edge.Valid() && edge.ring == ring
      invariant area == AreaUpTo(ring, edge.it)
      decreases |ring| - edge.it
    {
      area := area + edge.Start().Cross(edge.End());
      edge.Next();
    }
  }

  /** Reference definition: the shoelace sum over consecutive vertices from the
      front, plus the closing edge. */
  function PathCross(s: Ring): int
  {
    if |s| < 2 then 0 else s[0].Cross(s[1]) + PathCross(s[1..])
  }

  function Shoelace(s: Ring): int
    requires |s| > 0
  {
    PathCross(s) + s[|s| - 1].Cross(s[0])
  }

  lemma {:induction false} PathCrossSnoc(s: Ring, p: Point)
    requires |s| > 0
    ensures PathCross(s + [p]) == PathCross(s) + s[|s| - 1].Cross(p)
  {
    if |s| == 1 {
      assert (s + [p])[1..] == [p];
    } else {
      assert (s + [p])[1..] == s[1..] + [p];
      PathCrossSnoc(s[1..], p);
    }
  }

  lemma {:induction false} AreaUpToIsPathCross(ring: Ring, k: nat)
    requires 0 < k <= |ring|
    ensures AreaUpTo(ring, k) == ring[|ring| - 1].Cross(ring[0]) + PathCross(ring[..k])
  {
    if k > 1 {
      AreaUpToIsPathCross(ring, k - 1);
      PathCrossSnoc(ring[..k - 1], ring[k - 1]);
      assert ring[..k - 1] + [ring[k - 1]] == ring[..k];
    }
  }

  /** The edge-loop area equals the front-to-back shoelace formula. */
  lemma AreaIsShoelace(ring: Ring)
    requires |ring| > 0
    ensures Area2(ring) == Shoelace(ring)
  {
    AreaUpToIsPathCross(ring, |ring|);
    assert ring[..|ring|] == ring;
  }

  lemma {:induction false} PathCrossReversed(s: Ring)
    ensures PathCross(Reversed(s)) == -PathCross(s)
  {
    if |s| >= 2 {
      var t := Reversed(s[1..]);
      assert Reversed(s) == t + [s[0]];
      PathCrossReversed(s[1..]);
      PathCrossSnoc(t, s[0]);
      assert t[|t| - 1] == s[1];
      CrossAntisymmetric(s[1], s[0]);
    } else if |s| == 1 {
      assert Reversed(s) == s;
    }
  }

  /** `Reverse` negates the signed area, turning a hole into a solid ring and
      back. */
  lemma ReverseNegatesArea(ring: Ring)
    ensures Area2(Reversed(ring)) == -Area2(ring)
  {
    if |ring| > 0 {
      var r := Reversed(ring);
      AreaIsShoelace(ring);
      AreaIsShoelace(r);
      PathCrossReversed(ring);
      CrossAntisymmetric(ring[0], ring[|ring| - 1]);
    }
  }

  lemma {:induction false} AreaUpToTranslate(ring: Ring, offset: Point, k: nat)
    requires 0 < k <= |ring|
    ensures AreaUpTo(Translate(ring, offset), k)
         == AreaUpTo(ring, k) + ring[|ring| - 1].Minus(ring[k - 1]).Cross(offset)
  {
    var t := Translate(ring, offset);
    var n := |ring|;
    if k == 1 {
      ShiftCross(ring[n - 1], ring[0], offset);
    } else {
      AreaUpToTranslate(ring, offset, k - 1);
      ShiftCross(ring[k - 2], ring[k - 1], offset);
      CrossLinear(ring[n - 1], ring[k - 2], offset);
      CrossLinear(ring[k - 2], ring[k - 1], offset);
      CrossLinear(ring[n - 1], ring[k - 1], offset);
    }
  }

  /** Translation does not change the area: the reference vertex of the
      triangle fan need not lie inside the ring. */
  lemma TranslatePreservesArea(ring: Ring, offset: Point)
    ensures Area2(Translate(ring, offset)) == Area2(ring)
  {
    if |ring| > 0 {
      var n := |ring|;
      AreaUpToTranslate(ring, offset, n);
      assert ring[n - 1].Minus(ring[n - 1]) == Origin();
    }
  }

  // ---------------------------------------------------------------------
  // Winding number and containment

  datatype WindingCount = WindingCount(winding: int, border: int)

  /** The contribution of one edge from `s` to `e` to the winding number and
      border count of `p`. Only edges that straddle the horizontal line through
      `p` (one end with y <= p.y, the other above) contribute. */
  function EdgeWinding(s: Point, e: Point, p: Point): WindingCount
  {
    var startsBelow := s.y <= p.y;
    var endsBelow := e.y <= p.y;
    if startsBelow == endsBelow then WindingCount(0, 0)
    else
      var cross := e.Minus(s).Cross(p.Minus(s));
      WindingCount((if !endsBelow && cross > 0 then 1 else 0) - (if endsBelow && cross <= 0 then 1 else 0),
                   if cross == 0 then 1 else 0)
  }

  function WindingUpTo(ring: Ring, p: Point, k: nat): (w: WindingCount)
    requires k <= |ring|
    ensures 0 <= w.border <= k
    ensures -(k as int) <= w.winding <= k
  {
    if k == 0 then WindingCount(0, 0)
    else
      var w := WindingUpTo(ring, p, k - 1);
      var c := EdgeWinding(StartAt(ring, k - 1), EndAt(ring, k - 1), p);
      WindingCount(w.winding + c.winding, w.border + c.border)
  }

  function WindingOf(ring: Ring, p: Point): WindingCount
  {
    WindingUpTo(ring, p, |ring|)
  }

  /** `Winding(point)`: the edge loop of the source. */
  method Winding(ring: Ring, point: Point) returns (winding: int, border: int)
    requires |ring| > 0
    ensures WindingCount(winding, border) == WindingOf(ring, point)
  {
    winding, border := 0, 0;
    var edge := new Edge(ring);
    while edge.HasEdge()
      invariant edge.Valid() && edge.ring == ring
      invariant WindingCount(winding, border) == WindingUpTo(ring, point, edge.it)
      decreases |ring| - edge.it
    {
      var startsBelow := edge.Start().y <= point.y;
      var endsBelow := edge.End().y <= point.y;
      if startsBelow != endsBelow {
        var cross := edge.Vector().Cross(point.Minus(edge.Start()));
        winding := winding + (if !endsBelow && cross > 0 then 1 else 0);
        winding := winding - (if endsBelow && cross <= 0 then 1 else 0);
        border := border + (if cross == 0 then 1 else 0);
      }
      edge.Next();
    }
  }

  /** `Contains(point)`: a nonzero winding number. The border count is not
      consulted, so a point on the boundary is inside only when its winding
      number says so. */
  predicate Contains(ring: Ring, point: Point)
  {
    WindingOf(ring, point).winding != 0
  }

  lemma {:induction false} WindingUpToTranslate(ring: Ring, p: Point, offset: Point, k: nat)
    requires k <= |ring|
    ensures WindingUpTo(Translate(ring, offset), p.Plus(offset), k) == WindingUpTo(ring, p, k)
  {
    if k > 0 {
      WindingUpToTranslate(ring, p, offset, k - 1);
      var t := Translate(ring, offset);
      var s, e := StartAt(ring, k - 1), EndAt(ring, k - 1);
      assert StartAt(t, k - 1) == s.Plus(offset) && EndAt(t, k - 1) == e.Plus(offset);
      EdgeWindingTranslate(s, e, p, offset);
    }
  }

  /** One edge counts the same after the edge and the point move together. */
  lemma EdgeWindingTranslate(s: Point, e: Point, p: Point, offset: Point)
    ensures EdgeWinding(s.Plus(offset), e.Plus(offset), p.Plus(offset)) == EdgeWinding(s, e, p)
  {
    assert e.Plus(offset).Minus(s.Plus(offset)) == e.Minus(s);
    assert p.Plus(offset).Minus(s.Plus(offset)) == p.Minus(s);
  }

  /** Moving the ring and the point together changes neither the winding
      number nor the border count. */
  lemma WindingTranslate(ring: Ring, p: Point, offset: Point)
    ensures WindingOf(Translate(ring, offset), p.Plus(offset)) == WindingOf(ring, p)
    ensures Contains(Translate(ring, offset), p.Plus(offset)) == Contains(ring, p)
  {
    WindingUpToTranslate(ring, p, offset, |ring|);
  }

  /** `Contains(ring)`, assuming the two rings do not cross: only the inner
      ring's first vertex is tested, and when it lies on this ring's border,
      this ring must also be the larger one. */
  function ContainsRing(outer: Ring, inner: Ring): (b: bool)
    requires |inner| > 0
    ensures b ==> Contains(outer, inner[0])
    ensures WindingOf(outer, inner[0]).border == 0 ==> (b <==> Contains(outer, inner[0]))
    ensures WindingOf(outer, inner[0]).border != 0 ==>
              (b <==> Contains(outer, inner[0]) && Area2(outer) > Area2(inner))
  {
    var w := WindingOf(outer, inner[0]);
    w.winding != 0 && (w.border == 0 || Area2(outer) > Area2(inner))
  }

  // ---------------------------------------------------------------------
  // Concave points

  /** The vertex visited before `StartAt(ring, k)` when walking the loop. */
  function PrevAt(ring: Ring, k: nat): Point
    requires |ring| >= 2 && k < |ring|
  {
    if k == 0 then StartAt(ring, |ring| - 1) else StartAt(ring, k - 1)
  }

  /** The test of `ConcavePoints` for the vertex `here` between `prev` and `next`. */
  predicate ConcaveTurn(prev: Point, here: Point, next: Point)
  {
    here.Minus(prev).Cross(next.Minus(prev)) < 0
  }

  /** The concave vertices found among the first k steps; step k looks at
      `here = StartAt(ring, k)` with its neighbours. */
  function ConcaveUpTo(ring: Ring, k: nat): (r: seq<Point>)
    requires |ring| >= 2 && k <= |ring|
    ensures |r| <= k
    ensures forall q :: q in r ==> q in ring
  {
    if k == 0 then []
    else
      var here := StartAt(ring, k - 1);
      ConcaveUpTo(ring, k - 1)
        + (if ConcaveTurn(PrevAt(ring, k - 1), here, EndAt(ring, k - 1)) then [here] else [])
  }

  function ConcavePointsOf(ring: Ring): seq<Point>
  {
    if |ring| < 3 then ring else ConcaveUpTo(ring, |ring|)
  }

  /** `ConcavePoints()`: every vertex for a degenerate ring, else the vertices
      where the loop turns the concave way, starting from the last vertex. */
  method ConcavePoints(ring: Ring) returns (result: seq<Point>)
    ensures result == ConcavePointsOf(ring)
  {
    if |ring| < 3 {
      return ring;
    }
    result := [];
    var n := |ring|;
    var prev := ring[n - 2];
    var here := ring[n - 1];
    var i := 0;
    while i < n
      invariant 0 <= i <= n
      invariant here == (if i == 0 then ring[n - 1] else ring[i - 1])
      invariant prev == (if i == 0 then ring[n - 2] else if i == 1 then ring[n - 1] else ring[i - 2])
      invariant result == ConcaveUpTo(ring, i)
    {
      var next := ring[i];
      if here.Minus(prev).Cross(next.Minus(prev)) < 0 {
        result := result + [here];
      }
      prev := here;
      here := next;
      i := i + 1;
    }
  }

  /** The concave points are vertices of the ring and never more of them; a
      ring of fewer than three vertices is returned whole. */
  lemma ConcavePointsBounds(ring: Ring)
    ensures |ConcavePointsOf(ring)| <= |ring|
    ensures forall q :: q in ConcavePointsOf(ring) ==> q in ring
    ensures |ring| < 3 ==> ConcavePointsOf(ring) == ring
  {
  }

  // ---------------------------------------------------------------------
  // The example ring of the desktop test program

  function Hexagon(): Ring
  {
    [Point(-10, 10), Point(10, 10), Point(20, 0), Point(10, -10), Point(-10, -10), Point(-20, 0)]
  }

  /** The hexagon winds clockwise, so it is a hole of doubled area -1200. */
  lemma HexagonIsHole()
    ensures Area2(Hexagon()) == -1200 && IsHole(Hexagon())
  {
    var h := Hexagon();
    assert AreaUpTo(h, 1) == -200;
    assert AreaUpTo(h, 2) == -400;
    assert AreaUpTo(h, 3) == -600;
    assert AreaUpTo(h, 4) == -800;
    assert AreaUpTo(h, 5) == -1000;
  }

  /** The winding contributions of the hexagon's six edges, in loop order. */
  function HexagonEdges(p: Point): seq<WindingCount>
  {
    [EdgeWinding(Point(-20, 0), Point(-10, 10), p), EdgeWinding(Point(-10, 10), Point(10, 10), p),
     EdgeWinding(Point(10, 10), Point(20, 0), p), EdgeWinding(Point(20, 0), Point(10, -10), p),
     EdgeWinding(Point(10, -10), Point(-10, -10), p), EdgeWinding(Point(-10, -10), Point(-20, 0), p)]
  }

  lemma HexagonWinding(p: Point, k: nat)
    requires k <= 6
    ensures var w := WindingUpTo(Hexagon(), p, k);
            var e := HexagonEdges(p);
            k > 0 ==> w == WindingCount(WindingUpTo(Hexagon(), p, k - 1).winding + e[k - 1].winding,
                                        WindingUpTo(Hexagon(), p, k - 1).border + e[k - 1].border)
  {
    if k > 0 {
      var h := Hexagon();
      var s := if k == 1 then h[5] else h[k - 2];
      assert StartAt(h, k - 1) == s;
      assert HexagonEdges(p)[k - 1] == EdgeWinding(s, h[k - 1], p);
    }
  }

  /** On the line y = 5 only the two slanted upper edges straddle. */
  lemma HexagonEdgesAtFive(p: Point)
    requires p.y == 5
    ensures HexagonEdges(p)
         == [WindingCount(if -150 - 10 * p.x > 0 then 1 else 0, if -150 - 10 * p.x == 0 then 1 else 0),
             WindingCount(0, 0),
             WindingCount(if 10 * p.x - 150 <= 0 then -1 else 0, if 10 * p.x - 150 == 0 then 1 else 0),
             WindingCount(0, 0), WindingCount(0, 0), WindingCount(0, 0)]
  {
    assert Point(-10, 10).Minus(Point(-20, 0)).Cross(p.Minus(Point(-20, 0))) == -150 - 10 * p.x;
    assert Point(20, 0).Minus(Point(10, 10)).Cross(p.Minus(Point(10, 10))) == 10 * p.x - 150;
  }

  /** When only the first and third edges contribute, the winding count is
      their sum. */
  lemma HexagonTwoEdges(p: Point, a: WindingCount, c: WindingCount)
    requires HexagonEdges(p) == [a, WindingCount(0, 0), c, WindingCount(0, 0), WindingCount(0, 0), WindingCount(0, 0)]
    ensures WindingOf(Hexagon(), p) == WindingCount(a.winding + c.winding, a.border + c.border)
  {
    HexagonWinding(p, 1);
    HexagonWinding(p, 2);
    HexagonWinding(p, 3);
    HexagonWinding(p, 4);
    HexagonWinding(p, 5);
    HexagonWinding(p, 6);
  }

  /** The winding count of any point on the line y = 5, in terms of its x. */
  lemma HexagonAtFive(p: Point)
    requires p.y == 5
    ensures WindingOf(Hexagon(), p)
         == WindingCount((if -150 - 10 * p.x > 0 then 1 else 0) + (if 10 * p.x - 150 <= 0 then -1 else 0),
                         (if -150 - 10 * p.x == 0 then 1 else 0) + (if 10 * p.x - 150 == 0 then 1 else 0))
  {
    HexagonEdgesAtFive(p);
    HexagonTwoEdges(p, WindingCount(if -150 - 10 * p.x > 0 then 1 else 0, if -150 - 10 * p.x == 0 then 1 else 0),
                    WindingCount(if 10 * p.x - 150 <= 0 then -1 else 0, if 10 * p.x - 150 == 0 then 1 else 0));
  }

  /** (0, 5) lies strictly inside the hexagon. */
  lemma HexagonContainsInner()
    ensures WindingOf(Hexagon(), Point(0, 5)) == WindingCount(-1, 0)
    ensures Contains(Hexagon(), Point(0, 5))
  {
    HexagonAtFive(Point(0, 5));
  }

  /** (-15, 5) lies on the hexagon's upper-left edge: it is counted once on
      the border and is contained by its winding number. */
  lemma HexagonContainsLeftBorder()
    ensures WindingOf(Hexagon(), Point(-15, 5)) == WindingCount(-1, 1)
    ensures Contains(Hexagon(), Point(-15, 5))
  {
    HexagonAtFive(Point(-15, 5));
  }

  /** (15, 5) lies on the hexagon's upper-right edge, likewise. */
  lemma HexagonContainsRightBorder()
    ensures WindingOf(Hexagon(), Point(15, 5)) == WindingCount(-1, 1)
    ensures Contains(Hexagon(), Point(15, 5))
  {
    HexagonAtFive(Point(15, 5));
  }
}
