// A polygon: a list of rings that do not cross each other, solid rings going
// clockwise and holes counter-clockwise. Besides the transforms, it answers
// point containment and segment intersection, extracts the connected component
// around a point, and merges in new rings (`Add`, a polygon union).
module Polygons {
  import opened Ints
  import opened Points
  import opened Edges
  import opened Rings
  import opened Intersections

  type Polygon = seq<Ring>

  datatype Option<T> = None | Some(value: T)

  /** Every ring has a first vertex, which `Edge` and `Contains(Ring)` read. */
  predicate AllNonEmpty(P: Polygon)
  {
    forall k :: 0 <= k < |P| ==> |P[k]| > 0
  }

  // ---------------------------------------------------------------------
  // Translate and scale: each ring in turn

  /** `P + offset` (and `P - offset`, which adds the negated offset). */
  function TranslatePolygon(P: Polygon, offset: Point): (r: Polygon)
    ensures |r| == |P|
    ensures forall k :: 0 <= k < |P| ==> r[k] == Translate(P[k], offset) && |r[k]| == |P[k]|
  {
    if P == [] then [] else [Translate(P[0], offset)] + TranslatePolygon(P[1..], offset)
  }

  /** `P * scale` and `scale * P`. */
  function ScalePolygon(P: Polygon, scale: int): (r: Polygon)
    ensures |r| == |P|
    ensures forall k :: 0 <= k < |P| ==> r[k] == Scale(P[k], scale) && |r[k]| == |P[k]|
  {
    if P == [] then [] else [Scale(P[0], scale)] + ScalePolygon(P[1..], scale)
  }

  /** `P / scale`, each coordinate truncated toward zero. */
  function DividePolygon(P: Polygon, scale: int): (r: Polygon)
    requires scale != 0
    ensures |r| == |P|
    ensures forall k :: 0 <= k < |P| ==> r[k] == Divide(P[k], scale) && |r[k]| == |P[k]|
  {
    if P == [] then [] else [Divide(P[0], scale)] + DividePolygon(P[1..], scale)
  }

  /** Subtracting the offset that was added gives back the polygon. */
  lemma TranslatePolygonBack(P: Polygon, offset: Point)
    ensures TranslatePolygon(TranslatePolygon(P, offset), offset.Neg()) == P
  {
    var r := TranslatePolygon(TranslatePolygon(P, offset), offset.Neg());
    forall k | 0 <= k < |P| ensures r[k] == P[k] {
      TranslateBack(P[k], offset);
    }
  }

  /** Dividing by the factor that was multiplied in gives back the polygon. */
  lemma ScalePolygonThenDivide(P: Polygon, k: int)
    requires k != 0
    ensures DividePolygon(ScalePolygon(P, k), k) == P
  {
    var r := DividePolygon(ScalePolygon(P, k), k);
    forall m | 0 <= m < |P| ensures r[m] == P[m] {
      ScaleThenDivide(P[m], k);
    }
  }

  /** Translation keeps every ring's area, so solid rings stay solid and holes
      stay holes. */
  lemma TranslatePolygonKeepsHoles(P: Polygon, offset: Point)
    ensures forall k :: 0 <= k < |P| ==>
              Area2(TranslatePolygon(P, offset)[k]) == Area2(P[k])
              && (IsHole(TranslatePolygon(P, offset)[k]) <==> IsHole(P[k]))
  {
    forall k | 0 <= k < |P|
      ensures Area2(TranslatePolygon(P, offset)[k]) == Area2(P[k])
    {
      TranslatePreservesArea(P[k], offset);
    }
  }

  /** `+=`: every ring moved in place. */
  method TranslateEach(a: array<Ring>, offset: Point)
    modifies a
    ensures a[..] == TranslatePolygon(old(a[..]), offset)
  {
    for i := 0 to a.Length
      invariant forall k :: 0 <= k < i ==> a[k] == Translate(old(a[k]), offset)
      invariant forall k :: i <= k < a.Length ==> a[k] == old(a[k])
    {
      a[i] := Translate(a[i], offset);
    }
  }

  /** `*=`: every ring scaled in place. */
  method ScaleEach(a: array<Ring>, scale: int)
    modifies a
    ensures a[..] == ScalePolygon(old(a[..]), scale)
  {
    for i := 0 to a.Length
      invariant forall k :: 0 <= k < i ==> a[k] == Scale(old(a[k]), scale)
      invariant forall k :: i <= k < a.Length ==> a[k] == old(a[k])
    {
      a[i] := Scale(a[i], scale);
    }
  }

  /** `/=`: every ring divided in place. */
  method DivideEach(a: array<Ring>, scale: int)
    requires scale != 0
    modifies a
    ensures a[..] == DividePolygon(old(a[..]), scale)
  {
    for i := 0 to a.Length
      invariant forall k :: 0 <= k < i ==> a[k] == Divide(old(a[k]), scale)
      invariant forall k :: i <= k < a.Length ==> a[k] == old(a[k])
    {
      a[i] := Divide(a[i], scale);
    }
  }

  // ---------------------------------------------------------------------
  // Contains(point)

  /** Some ring of the first n has the point on its border. */
  predicate AnyBorder(P: Polygon, p: Point, n: nat)
    requires n <= |P|
  {
    exists k :: 0 <= k < n && WindingOf(P[k], p).border != 0
  }

  /** The winding numbers of the first n rings, summed. */
  function TotalWinding(P: Polygon, p: Point, n: nat): int
    requires n <= |P|
  {
    if n == 0 then 0 else TotalWinding(P, p, n - 1) + WindingOf(P[n - 1], p).winding
  }

  /** A point is in the polygon when it lies on some ring's border, or else
      when the winding numbers of all the rings add up to something nonzero. */
  predicate PolygonContains(P: Polygon, p: Point)
  {
    AnyBorder(P, p, |P|) || TotalWinding(P, p, |P|) != 0
  }

  /** `Contains(point)`: sums the winding numbers, returning at once when the
      point is on a ring's border. */
  method Contains(P: Polygon, point: Point) returns (b: bool)
    requires AllNonEmpty(P)
    ensures b == PolygonContains(P, point)
  {
    var winding := 0;
    for i := 0 to |P|
      invariant winding == TotalWinding(P, point, i)
      invariant !AnyBorder(P, point, i)
    {
      var w, border := Winding(P[i], point);
      if border != 0 {
        return true;
      }
      winding := winding + w;
    }
    return winding != 0;
  }

  /** An empty polygon contains nothing; a single ring contains exactly the
      points with a nonzero winding number and the points on its border. */
  lemma ContainsOneRing(ring: Ring, p: Point)
    ensures !PolygonContains([], p)
    ensures PolygonContains([ring], p) <==> Rings.Contains(ring, p) || WindingOf(ring, p).border != 0
  {
    assert TotalWinding([ring], p, 1) == WindingOf(ring, p).winding;
    if WindingOf(ring, p).border != 0 {
      assert AnyBorder([ring], p, 1);
    }
  }

  // ---------------------------------------------------------------------
  // Intersects(start, end)

  /** The test of `Intersects` for edge k of `ring` against the segment from
      `start` along `qV`: not parallel, strictly inside the segment (its end
      points excluded) and anywhere on the edge, its end points included. */
  predicate SegmentHits(ring: Ring, k: nat, start: Point, qV: Point)
    requires k < |ring|
  {
    var c := NormalCrossing(StartAt(ring, k), VectorAt(ring, k), start, qV);
    c.cross != 0 && 0 < c.qT < c.cross && 0 <= c.pT <= c.cross
  }

  predicate PolygonIntersects(P: Polygon, start: Point, end: Point)
  {
    exists m, e :: 0 <= m < |P| && 0 <= e < |P[m]| && SegmentHits(P[m], e, start, end.Minus(start))
  }

  /** `Intersects(start, end)`: the edge loops with an early return. */
  method Intersects(P: Polygon, start: Point, end: Point) returns (b: bool)
    requires AllNonEmpty(P)
    ensures b == PolygonIntersects(P, start, end)
  {
    var qV := end.Minus(start);
    for i := 0 to |P|
      invariant forall m, e :: 0 <= m < i && 0 <= e < |P[m]| ==> !SegmentHits(P[m], e, start, qV)
    {
      var p := new Edge(P[i]);
      while p.HasEdge()
        invariant p.Valid() && p.ring == P[i]
        invariant forall e :: 0 <= e < p.it ==> !SegmentHits(P[i], e, start, qV)
        decreases |P[i]| - p.it
      {
        var hit := EdgeHits(P[i], p.it, p.Start(), p.Vector(), start, qV);
        if hit {
          return true;
        }
        p.Next();
      }
    }
    return false;
  }

  /** The body of the edge loop of `Intersects` for edge k, starting at pS
      along pV. */
  method EdgeHits(ring: Ring, k: nat, pS: Point, pV: Point, start: Point, qV: Point) returns (hit: bool)
    requires k < |ring| && pS == StartAt(ring, k) && pV == VectorAt(ring, k)
    ensures hit == SegmentHits(ring, k, start, qV)
  {
    hit := false;
    var cross := pV.Cross(qV);
    if cross != 0 {
      var d := start.Minus(pS);
      var pT := d.Cross(qV);
      var qT := d.Cross(pV);
      if cross < 0 {
        cross, pT, qT := -cross, -pT, -qT;
      }
      hit := qT > 0 && qT < cross && pT >= 0 && pT <= cross;
    }
  }

  /** A degenerate segment crosses nothing: its vector is zero, so every edge
      counts as parallel to it. The empty polygon crosses no segment at all. */
  lemma PointSegmentNeverIntersects(P: Polygon, s: Point)
    ensures !PolygonIntersects(P, s, s)
    ensures forall a, b :: !PolygonIntersects([], a, b)
  {
    forall m, e | 0 <= m < |P| && 0 <= e < |P[m]|
      ensures !SegmentHits(P[m], e, s, s.Minus(s))
    {
      assert s.Minus(s) == Point(0, 0);
    }
  }

  /** The cross products of the segment test after swapping the segment's
      ends, in terms of the original ones. */
  lemma ReversedCrosses(pV: Point, d: Point, qV: Point)
    ensures pV.Cross(qV.Neg()) == -pV.Cross(qV)
    ensures d.Plus(qV).Cross(qV.Neg()) == -d.Cross(qV)
    ensures d.Plus(qV).Cross(pV) == d.Cross(pV) - pV.Cross(qV)
  {
    assert d.Plus(qV).Cross(qV.Neg()) == (d.x + qV.x) * -qV.y - (d.y + qV.y) * -qV.x;
    assert (d.x + qV.x) * -qV.y == -(d.x * qV.y) - qV.x * qV.y;
    assert (d.y + qV.y) * -qV.x == -(d.y * qV.x) - qV.y * qV.x;
    assert d.Plus(qV).Cross(pV) == (d.x + qV.x) * pV.y - (d.y + qV.y) * pV.x;
    assert (d.x + qV.x) * pV.y == d.x * pV.y + qV.x * pV.y;
    assert (d.y + qV.y) * pV.x == d.y * pV.x + qV.y * pV.x;
  }

  /** Swapping the segment's ends swaps the crossing parameter along the
      segment for its complement and keeps the one along the edge, so the
      test does not depend on the segment's direction. */
  lemma SegmentHitsReversed(ring: Ring, k: nat, start: Point, end: Point)
    requires k < |ring|
    ensures SegmentHits(ring, k, start, end.Minus(start)) <==> SegmentHits(ring, k, end, start.Minus(end))
  {
    var pS, pV := StartAt(ring, k), VectorAt(ring, k);
    var qV := end.Minus(start);
    var d := start.Minus(pS);
    assert start.Minus(end) == qV.Neg();
    assert end.Minus(pS) == d.Plus(qV);
    ReversedCrosses(pV, d, qV);
    var c := NormalCrossing(pS, pV, start, qV);
    var c2 := NormalCrossing(pS, pV, end, qV.Neg());
    var cross, pT, qT := pV.Cross(qV), d.Cross(qV), d.Cross(pV);
    assert c == if cross < 0 then Crossing(-cross, -pT, -qT) else Crossing(cross, pT, qT);
    assert c2 == if -cross < 0 then Crossing(cross, pT, -(qT - cross)) else Crossing(-cross, -pT, qT - cross);
    assert c2.cross == c.cross && (c.cross != 0 ==> c2.pT == c.pT && c2.qT == c.cross - c.qT);
  }

  /** The segment test is symmetric in the segment's end points. */
  lemma IntersectsSymmetric(P: Polygon, start: Point, end: Point)
    ensures PolygonIntersects(P, start, end) <==> PolygonIntersects(P, end, start)
  {
    forall m, e | 0 <= m < |P| && 0 <= e < |P[m]|
      ensures SegmentHits(P[m], e, start, end.Minus(start)) <==> SegmentHits(P[m], e, end, start.Minus(end))
    {
      SegmentHitsReversed(P[m], e, start, end);
    }
  }

  // ---------------------------------------------------------------------
  // FloodFill(point)

  /** A solid ring (positive area) around the point. */
  predicate SolidAround(ring: Ring, p: Point)
  {
    Area2(ring) > 0 && Rings.Contains(ring, p)
  }

  /** Among the first n rings, the index of the smallest solid ring around the
      point; on equal areas the first one found wins. */
  function SmallestAround(P: Polygon, p: Point, n: nat): (r: Option<nat>)
    requires n <= |P|
    ensures r.None? <==> forall k :: 0 <= k < n ==> !SolidAround(P[k], p)
    ensures r.Some? ==> r.value < n && SolidAround(P[r.value], p)
    ensures r.Some? ==> forall k :: 0 <= k < n && SolidAround(P[k], p) ==>
              Area2(P[r.value]) <= Area2(P[k]) && (k < r.value ==> Area2(P[r.value]) < Area2(P[k]))
  {
    if n == 0 then None
    else
      var s := SmallestAround(P, p, n - 1);
      if SolidAround(P[n - 1], p) && (s.None? || Area2(P[n - 1]) < Area2(P[s.value])) then Some(n - 1)
      else s
  }

  /** Some ring of smaller (more negative) area contains the hole's first
      vertex: the hole lies inside a larger hole. */
  predicate NestedHole(P: Polygon, i: nat)
    requires i < |P| && AllNonEmpty(P)
  {
    exists j :: 0 <= j < |P| && Area2(P[j]) < Area2(P[i]) && Rings.Contains(P[j], P[i][0])
  }

  /** Ring i survives the flood fill from the solid ring s: it is s itself, or a
      hole inside s that is not inside a larger hole. */
  predicate KeepRing(P: Polygon, s: nat, i: nat)
    requires s < |P| && i < |P| && AllNonEmpty(P)
  {
    i == s || (Area2(P[i]) < 0 && ContainsRing(P[s], P[i]) && !NestedHole(P, i))
  }

  /** The indices among the first n that survive, in increasing order. */
  function KeptIndices(P: Polygon, s: nat, n: nat): (r: seq<nat>)
    requires s < |P| && n <= |P| && AllNonEmpty(P)
    ensures forall m :: 0 <= m < |r| ==> r[m] < n && KeepRing(P, s, r[m])
    ensures forall m, m' :: 0 <= m < m' < |r| ==> r[m] < r[m']
    ensures forall k :: 0 <= k < n && KeepRing(P, s, k) ==> k in r
  {
    if n == 0 then [] else KeptIndices(P, s, n - 1) + (if KeepRing(P, s, n - 1) then [n - 1] else [])
  }

  function Select(P: Polygon, idx: seq<nat>): (r: Polygon)
    requires forall m :: 0 <= m < |idx| ==> idx[m] < |P|
    ensures |r| == |idx| && forall m :: 0 <= m < |idx| ==> r[m] == P[idx[m]]
  {
    if idx == [] then [] else Select(P, idx[..|idx| - 1]) + [P[idx[|idx| - 1]]]
  }

  /** The component of the polygon around the point: nothing when no solid
      ring contains it, else the kept rings in their original order. */
  function FloodFillOf(P: Polygon, p: Point): Polygon
    requires AllNonEmpty(P)
  {
    match SmallestAround(P, p, |P|)
    case None => []
    case Some(s) => Select(P, KeptIndices(P, s, |P|))
  }

  /** With a solid ring around the point the result holds exactly one solid
      ring, the smallest one (the first on ties), and besides it only holes
      inside it that are not inside larger holes; every such hole is kept, and
      the rings keep their relative order. */
  lemma FloodFillHolds(P: Polygon, p: Point)
    requires AllNonEmpty(P)
    ensures (forall k :: 0 <= k < |P| ==> !SolidAround(P[k], p)) ==> FloodFillOf(P, p) == []
    ensures SmallestAround(P, p, |P|).Some? ==>
              var s := SmallestAround(P, p, |P|).value;
              var idx := KeptIndices(P, s, |P|);
              && FloodFillOf(P, p) == Select(P, idx)
              && s in idx
              && (forall m :: 0 <= m < |idx| && idx[m] != s ==> IsHole(P[idx[m]]) && ContainsRing(P[s], P[idx[m]]))
              && (forall m :: 0 <= m < |idx| && Area2(P[idx[m]]) > 0 ==> idx[m] == s)
              && (forall k :: 0 <= k < |P| && IsHole(P[k]) && ContainsRing(P[s], P[k]) && !NestedHole(P, k) ==> k in idx)
              && (forall m, m' :: 0 <= m < m' < |idx| ==> idx[m] < idx[m'])
  {
    if SmallestAround(P, p, |P|).Some? {
      KeptShape(P, SmallestAround(P, p, |P|).value);
    }
  }

  /** The rings kept from ring s: s itself, and besides it exactly the holes
      inside s that are not inside larger holes, in increasing order. */
  lemma KeptShape(P: Polygon, s: nat)
    requires AllNonEmpty(P) && s < |P|
    ensures var idx := KeptIndices(P, s, |P|);
              && s in idx
              && (forall m :: 0 <= m < |idx| && idx[m] != s ==> IsHole(P[idx[m]]) && ContainsRing(P[s], P[idx[m]]))
              && (forall m :: 0 <= m < |idx| && Area2(P[idx[m]]) > 0 ==> idx[m] == s)
              && (forall k :: 0 <= k < |P| && IsHole(P[k]) && ContainsRing(P[s], P[k]) && !NestedHole(P, k) ==> k in idx)
              && (forall m, m' :: 0 <= m < m' < |idx| ==> idx[m] < idx[m'])
  {
    assert KeepRing(P, s, s);
  }

  /** The `area` vector of `FloodFill`: each ring's doubled area. */
  method Areas(P: Polygon) returns (area: array<int>)
    requires AllNonEmpty(P)
    ensures fresh(area) && area.Length == |P|
    ensures forall k :: 0 <= k < |P| ==> area[k] == Area2(P[k])
  {
    area := new int[|P|];
    for i := 0 to |P|
      invariant forall k :: 0 <= k < i ==> area[k] == Area2(P[k])
    {
      area[i] := DoubledArea(P[i]);
    }
  }

  /** The first loop of `FloodFill`: the smallest solid ring around the point,
      `keepCount` telling whether there is one. */
  method FindSmallest(P: Polygon, point: Point, area: array<int>) returns (keepCount: int, smallestI: nat)
    requires area.Length == |P| && forall k :: 0 <= k < |P| ==> area[k] == Area2(P[k])
    ensures keepCount == 0 || keepCount == 1
    ensures keepCount == 0 <==> SmallestAround(P, point, |P|).None?
    ensures keepCount == 1 ==> SmallestAround(P, point, |P|) == Some(smallestI)
  {
    keepCount, smallestI := 0, 0;
    for i := 0 to |P|
      invariant (keepCount == 0) == SmallestAround(P, point, i).None?
      invariant keepCount != 0 ==> keepCount == 1 && SmallestAround(P, point, i) == Some(smallestI)
    {
      if area[i] > 0 && Rings.Contains(P[i], point) && (keepCount == 0 || area[i] < area[smallestI]) {
        keepCount := 1;
        smallestI := i;
      }
    }
  }

  /** The inner loop of `FloodFill`: whether hole i lies inside a larger hole. */
  method IsNested(P: Polygon, area: array<int>, i: nat) returns (nested: bool)
    requires AllNonEmpty(P) && i < |P|
    requires area.Length == |P| && forall k :: 0 <= k < |P| ==> area[k] == Area2(P[k])
    ensures nested == NestedHole(P, i)
  {
    nested := false;
    for j := 0 to |P|
      invariant !nested
      invariant forall m :: 0 <= m < j ==> !(Area2(P[m]) < Area2(P[i]) && Rings.Contains(P[m], P[i][0]))
    {
      if area[j] < area[i] && Rings.Contains(P[j], P[i][0]) {
        nested := true;
        break;
      }
    }
  }

  /** The second loop of `FloodFill`: marks the holes inside ring s that are
      not inside a larger hole. */
  method MarkHoles(P: Polygon, area: array<int>, keep: array<bool>, s: nat)
    requires AllNonEmpty(P) && s < |P| && Area2(P[s]) > 0
    requires area.Length == |P| && forall k :: 0 <= k < |P| ==> area[k] == Area2(P[k])
    requires keep.Length == |P| && keep != area as object
    requires forall k :: 0 <= k < |P| ==> keep[k] == (k == s)
    modifies keep
    ensures forall k :: 0 <= k < |P| ==> keep[k] == KeepRing(P, s, k)
  {
    var smallest := P[s];
    for i := 0 to |P|
      invariant forall k :: 0 <= k < i ==> keep[k] == KeepRing(P, s, k)
      invariant forall k :: i <= k < |P| ==> keep[k] == (k == s)
    {
      if area[i] < 0 && ContainsRing(smallest, P[i]) {
        var nested := IsNested(P, area, i);
        if !nested {
          keep[i] := true;
        }
      }
    }
  }

  /** The last loop of `FloodFill`: the marked rings, in order. */
  method Collect(P: Polygon, keep: array<bool>, s: nat) returns (result: Polygon)
    requires AllNonEmpty(P) && s < |P|
    requires keep.Length == |P| && forall k :: 0 <= k < |P| ==> keep[k] == KeepRing(P, s, k)
    ensures result == Select(P, KeptIndices(P, s, |P|))
  {
    result := [];
    ghost var idx: seq<nat> := [];
    for i := 0 to |P|
      invariant idx == KeptIndices(P, s, i)
      invariant result == Select(P, idx)
    {
      KeptStep(P, s, i, keep[i]);
      if keep[i] {
        SelectSnoc(P, idx, i);
        idx := idx + [i];
        result := result + [P[i]];
      }
    }
  }

  /** One more ring: its index joins the kept ones exactly when it is kept. */
  lemma KeptStep(P: Polygon, s: nat, i: nat, kept: bool)
    requires AllNonEmpty(P) && s < |P| && i < |P| && kept == KeepRing(P, s, i)
    ensures KeptIndices(P, s, i + 1) == KeptIndices(P, s, i) + (if kept then [i] else [])
  {
  }

  lemma SelectSnoc(P: Polygon, idx: seq<nat>, i: nat)
    requires i < |P| && forall m :: 0 <= m < |idx| ==> idx[m] < |P|
    ensures Select(P, idx + [i]) == Select(P, idx) + [P[i]]
  {
    assert (idx + [i])[..|idx|] == idx;
  }

  /** `FloodFill(point)`: keeps the smallest solid ring around the point and
      the holes inside it, or nothing when no solid ring contains the point. */
  method FloodFill(P: Polygon, point: Point) returns (result: Polygon)
    requires AllNonEmpty(P)
    ensures result == FloodFillOf(P, point)
  {
    var area := Areas(P);
    var keep := new bool[|P|](_ => false);
    var keepCount, smallestI := FindSmallest(P, point, area);
    if keepCount == 0 {
      return [];
    }
    keep[smallestI] := true;
    MarkHoles(P, area, keep, smallestI);
    result := Collect(P, keep, smallestI);
  }

  // ---------------------------------------------------------------------
  // Add(ring): the union of the polygon and one more ring. P is the polygon,
  // Q the ring being added.

  /** The intersections of one part of P with Q that survive `Sort` and
      `RemoveDoubles`. */
  function Survivors(part: Ring, ring: Ring, isHole: bool): seq<Intersection>
    requires |part| > 0 && |ring| > 0
  {
    RemoveDoublesOf(SortByOrder(Candidates(part, ring, isHole)))
  }

  /** The survivors are strictly increasing in order, and their orders and
      indices lie in the order ranges of the part and of Q. */
  lemma SurvivorsShape(part: Ring, ring: Ring, isHole: bool)
    requires |part| > 0 && |ring| > 0
    ensures var s := Survivors(part, ring, isHole);
            && StrictlyIncreasing(s)
            && forall m :: 0 <= m < |s| ==>
                 0 <= s[m].order < MaxOrderOf(part) && 0 <= s[m].index < MaxOrderOf(ring)
  {
    var c := Candidates(part, ring, isHole);
    RowsBounds(part, ring, isHole, |part|);
    var sorted := SortByOrder(c);
    RemoveDoublesSorted(sorted);
    var s := Survivors(part, ring, isHole);
    forall m | 0 <= m < |s|
      ensures 0 <= s[m].order < MaxOrderOf(part) && 0 <= s[m].index < MaxOrderOf(ring)
    {
      assert s[m] in sorted;
      assert s[m] in multiset(sorted);
      assert s[m] in multiset(c);
    }
  }

  /** The outcome of the `wasEntering` filter: the intersections kept and the
      flag of the last one seen. */
  datatype Alternation = Alternation(kept: seq<Intersection>, last: bool)

  /** The `wasEntering` filter of `Add`, starting from flag w: an intersection
      whose entering flag repeats the previous kept one's is skipped. */
  function Alternate(s: seq<Intersection>, w: bool): Alternation
    decreases |s|
  {
    if s == [] then Alternation([], w)
    else
      var a := Alternate(s[..|s| - 1], w);
      var x := s[|s| - 1];
      if x.entering == a.last then a else Alternation(a.kept + [x], x.entering)
  }

  /** The kept intersections alternate between entering and exiting, starting
      with the opposite of w; the final flag is the last kept one's, which is
      also the flag of the last intersection of the input. */
  lemma {:induction false} AlternateShape(s: seq<Intersection>, w: bool)
    ensures var a := Alternate(s, w);
            && |a.kept| <= |s|
            && (forall m :: 0 <= m < |a.kept| ==> a.kept[m] in s)
            && (forall m :: 0 <= m < |a.kept| ==> a.kept[m].entering == ((m % 2 == 1) == w))
            && a.last == ((|a.kept| % 2 == 0) == w)
            && (s != [] ==> a.last == s[|s| - 1].entering)
    decreases |s|
  {
    if s != [] {
      var t := s[..|s| - 1];
      AlternateShape(t, w);
      forall m | 0 <= m < |Alternate(t, w).kept| ensures Alternate(t, w).kept[m] in s {
        assert Alternate(t, w).kept[m] in t;
      }
    }
  }

  /** The survivors of every part of P, part by part. The specification
      of `Add` works on this table, so that reasoning about the parts never
      has to look inside `Candidates`. */
  ghost predicate SurvivorsOf(P: Polygon, ring: Ring, isHole: bool, T: seq<seq<Intersection>>)
    requires AllNonEmpty(P) && |ring| > 0
  {
    && |T| == |P|
    && forall k {:trigger Survivors(P[k], ring, isHole)} :: 0 <= k < |P| ==> T[k] == Survivors(P[k], ring, isHole)
  }

  ghost function SurvivorTable(P: Polygon, ring: Ring, isHole: bool): (T: seq<seq<Intersection>>)
    requires AllNonEmpty(P) && |ring| > 0
    ensures SurvivorsOf(P, ring, isHole, T)
  {
    seq(|P|, k requires 0 <= k < |P| => Survivors(P[k], ring, isHole))
  }

  /** The intersections of one part that `Add` records for the second step,
      from its survivors s. */
  function Toggles(s: seq<Intersection>): seq<Intersection>
  {
    if s == [] then [] else Alternate(s, s[|s| - 1].entering).kept
  }

  /** Each part crosses Q as often entering as exiting: the recorded
      intersections are survivors that alternate, starting with the opposite
      of the last survivor's flag, so there is an even number of them. */
  lemma TogglesBalanced(s: seq<Intersection>)
    ensures |Toggles(s)| % 2 == 0
    ensures forall m :: 0 <= m && m + 1 < |Toggles(s)| ==> Toggles(s)[m].entering != Toggles(s)[m + 1].entering
    ensures forall x :: x in Toggles(s) ==> x in s
  {
    if s != [] {
      var w := s[|s| - 1].entering;
      AlternateShape(s, w);
      var t := Alternate(s, w).kept;
      forall m | 0 <= m && m + 1 < |t| ensures t[m].entering != t[m + 1].entering {
        assert (m % 2 == 1) != ((m + 1) % 2 == 1);
      }
    }
  }

  /** A part records nothing exactly when all its survivors have the same
      entering flag (in particular when it has none). */
  lemma TogglesEmpty(s: seq<Intersection>)
    ensures Toggles(s) == [] <==> forall m :: 0 <= m < |s| ==> s[m].entering == s[|s| - 1].entering
  {
    if s != [] {
      AlternateEmpty(s, s[|s| - 1].entering);
    }
  }

  /** The filter keeps nothing exactly when every flag equals the start flag. */
  lemma {:induction false} AlternateEmpty(s: seq<Intersection>, w: bool)
    ensures Alternate(s, w).kept == [] <==> forall m :: 0 <= m < |s| ==> s[m].entering == w
    ensures Alternate(s, w).kept == [] ==> Alternate(s, w).last == w
    decreases |s|
  {
    if s != [] {
      var t := s[..|s| - 1];
      AlternateEmpty(t, w);
      assert forall m :: 0 <= m < |t| ==> t[m] == s[m];
    }
  }

  /** The parts among the first n that `Add` keeps unchanged: those with no
      surviving intersection that do not lie inside Q. */
  function KeptParts(P: Polygon, T: seq<seq<Intersection>>, ring: Ring, n: nat): (r: Polygon)
    requires n <= |P| == |T| && AllNonEmpty(P)
    ensures AllNonEmpty(r) && |r| <= n
  {
    if n == 0 then []
    else
      var part := P[n - 1];
      KeptParts(P, T, ring, n - 1) + (if T[n - 1] == [] && !ContainsRing(ring, part) then [part] else [])
  }

  /** The smallest kept part around Q among the first n: a kept part that
      contains Q replaces the previous candidate when it lies inside it. */
  function Container(P: Polygon, T: seq<seq<Intersection>>, ring: Ring, n: nat): (r: Option<Ring>)
    requires n <= |P| == |T| && AllNonEmpty(P) && |ring| > 0
    ensures r.Some? ==> r.value in KeptParts(P, T, ring, n) && ContainsRing(r.value, ring)
  {
    if n == 0 then None
    else
      var part := P[n - 1];
      var c := Container(P, T, ring, n - 1);
      if T[n - 1] == [] && !ContainsRing(ring, part) && ContainsRing(part, ring)
         && (c.None? || ContainsRing(c.value, part))
      then Some(part)
      else c
  }

  /** No part records an intersection for the second step. */
  predicate NoToggles(T: seq<seq<Intersection>>)
  {
    forall k :: 0 <= k < |T| ==> Toggles(T[k]) == []
  }

  /** Without recorded intersections, Q is added when its polarity differs
      from that of the smallest kept part around it, the outside counting as
      a hole. */
  function UntouchedUnion(P: Polygon, T: seq<seq<Intersection>>, ring: Ring): Polygon
    requires |P| == |T| && AllNonEmpty(P) && |ring| > 0
  {
    var c := Container(P, T, ring, |P|);
    var containerIsHole := c.None? || IsHole(c.value);
    KeptParts(P, T, ring, |P|) + (if containerIsHole != IsHole(ring) then [ring] else [])
  }

  /** Adding a solid ring to an empty polygon gives that ring; adding a hole
      gives nothing. */
  lemma AddToEmpty(ring: Ring)
    requires |ring| > 0
    ensures UntouchedUnion([], [], ring) == (if IsHole(ring) then [] else [ring])
    ensures NoToggles([])
  {
  }

  /** Adding a ring to the empty polygon gives the ring itself, or nothing
      for a hole. */
  lemma AddResultToEmpty(ring: Ring, result: Polygon)
    requires AddResult([], ring, result)
    ensures result == if IsHole(ring) then [] else [ring]
  {
    var T := SurvivorTable([], ring, IsHole(ring));
    assert T == [];
    AddToEmpty(ring);
  }

  /** When no part of P meets Q at all, the kept parts are exactly the parts
      not inside Q, in order. */
  lemma {:induction false} KeptWithoutSurvivors(P: Polygon, T: seq<seq<Intersection>>, ring: Ring, n: nat)
    requires n <= |P| == |T| && AllNonEmpty(P)
    requires forall k :: 0 <= k < n ==> T[k] == []
    ensures KeptParts(P, T, ring, n) == OutsideParts(P, ring, n)
  {
    if n > 0 {
      KeptWithoutSurvivors(P, T, ring, n - 1);
    }
  }

  /** The parts among the first n that do not lie inside Q. */
  function OutsideParts(P: Polygon, ring: Ring, n: nat): Polygon
    requires n <= |P| && AllNonEmpty(P)
  {
    if n == 0 then [] else OutsideParts(P, ring, n - 1) + (if !ContainsRing(ring, P[n - 1]) then [P[n - 1]] else [])
  }

  /** A vertex of the amplified rings, with a link to an equivalent vertex: an
      index into the amplified vector, -1 for none and -2 once followed. */
  datatype Vertex = Vertex(point: Point, link: int)

  /** Every link is an index into the vector and joins two copies of the same
      point: this is what lets a trace jump between the rings. */
  predicate LinkedWell(amp: seq<Vertex>)
  {
    forall m :: 0 <= m < |amp| ==>
      amp[m].link < |amp| && (amp[m].link >= 0 ==> amp[amp[m].link].point == amp[m].point)
  }

  /** Every vertex lies in S. */
  predicate PointsIn(amp: seq<Vertex>, S: set<Point>)
  {
    forall m :: 0 <= m < |amp| ==> amp[m].point in S
  }

  /** A record for the second step: its index is a vertex of the same point,
      and its order is in Q's range. */
  predicate RecordOk(x: Intersection, amp: seq<Vertex>, qMax: int)
  {
    0 <= x.index < |amp| && amp[x.index].point == x.point && 0 <= x.order < qMax
  }

  predicate RecordsAt(qI: seq<Intersection>, amp: seq<Vertex>, qMax: int)
  {
    forall x :: x in qI ==> RecordOk(x, amp, qMax)
  }

  /** The vertex a record of the first step points at. */
  predicate Records(y: Intersection, x: Intersection, amp: seq<Vertex>, from: nat)
  {
    && y.point == x.point && y.order == x.index && y.entering == x.entering
    && from <= y.index < |amp| && amp[y.index] == Vertex(x.point, -1)
  }

  /** The state the loop of `AmplifyPart` keeps: the vertices pushed since
      `from` are unlinked, and the records pushed since `base` point at the
      vertices made for the kept intersections, in order. */
  ghost predicate PartStep(amp0: seq<Vertex>, qI0: seq<Intersection>, amp: seq<Vertex>, qI: seq<Intersection>,
                           kept: seq<Intersection>)
  {
    && |amp0| <= |amp| && amp[..|amp0|] == amp0
    && (forall m :: |amp0| <= m < |amp| ==> amp[m].link == -1)
    && |qI| == |qI0| + |kept| && qI[..|qI0|] == qI0
    && forall m :: 0 <= m < |kept| ==> Records(qI[|qI0| + m], kept[m], amp, |amp0|)
  }

  /** Pushing an unlinked vertex keeps the step state. */
  lemma PushVertex(amp0: seq<Vertex>, qI0: seq<Intersection>, amp: seq<Vertex>, qI: seq<Intersection>,
                   kept: seq<Intersection>, p: Point)
    requires PartStep(amp0, qI0, amp, qI, kept)
    ensures PartStep(amp0, qI0, amp + [Vertex(p, -1)], qI, kept)
  {
    var amp2 := amp + [Vertex(p, -1)];
    assert amp2[..|amp0|] == amp[..|amp0|];
    forall m | 0 <= m < |kept| ensures Records(qI[|qI0| + m], kept[m], amp2, |amp0|) {
      assert Records(qI[|qI0| + m], kept[m], amp, |amp0|);
    }
  }

  /** Recording an intersection and pushing its vertex keeps the step state. */
  lemma PushRecord(amp0: seq<Vertex>, qI0: seq<Intersection>, amp: seq<Vertex>, qI: seq<Intersection>,
                   kept: seq<Intersection>, x: Intersection)
    requires PartStep(amp0, qI0, amp, qI, kept)
    ensures PartStep(amp0, qI0, amp + [Vertex(x.point, -1)],
                     qI + [Intersection(x.point, x.index, |amp|, x.entering)], kept + [x])
  {
    var amp2 := amp + [Vertex(x.point, -1)];
    var qI2 := qI + [Intersection(x.point, x.index, |amp|, x.entering)];
    var kept2 := kept + [x];
    assert amp2[..|amp0|] == amp[..|amp0|];
    assert qI2[..|qI0|] == qI[..|qI0|];
    forall m | 0 <= m < |kept2| ensures Records(qI2[|qI0| + m], kept2[m], amp2, |amp0|) {
      if m < |kept| {
        assert Records(qI[|qI0| + m], kept[m], amp, |amp0|);
      }
    }
  }

  /** The inner loop of the first step: consumes the intersections that lie
      before `bound` on the part, pushing a vertex and a record for each one
      whose entering flag differs from the previous kept one's. The sentinel
      the source appends (order `pMax`, never below a bound) is the test
      `it < |surv|`. */
  method TakeCrossings(surv: seq<Intersection>, bound: int, it: nat, w0: bool, wasEntering: bool,
                       ghost kept: seq<Intersection>, amp: seq<Vertex>, qI: seq<Intersection>,
                       ampIn: seq<Vertex>, qIn: seq<Intersection>, ghost S: set<Point>)
    returns (itOut: nat, wOut: bool, ghost keptOut: seq<Intersection>, ampOut: seq<Vertex>, qOut: seq<Intersection>)
    requires it <= |surv| && Alternate(surv[..it], w0) == Alternation(kept, wasEntering)
    requires PartStep(amp, qI, ampIn, qIn, kept)
    requires PointsIn(ampIn, S) && forall x :: x in surv ==> x.point in S
    ensures PointsIn(ampOut, S)
    ensures it <= itOut <= |surv| && (itOut == |surv| || surv[itOut].order >= bound)
    ensures Alternate(surv[..itOut], w0) == Alternation(keptOut, wOut)
    ensures PartStep(amp, qI, ampOut, qOut, keptOut)
    ensures |ampOut| >= |ampIn|
  {
    itOut, wOut, keptOut, ampOut, qOut := it, wasEntering, kept, ampIn, qIn;
    while itOut < |surv| && surv[itOut].order < bound
      invariant it <= itOut <= |surv|
      invariant Alternate(surv[..itOut], w0) == Alternation(keptOut, wOut)
      invariant PartStep(amp, qI, ampOut, qOut, keptOut)
      invariant |ampOut| >= |ampIn| && PointsIn(ampOut, S)
      decreases |surv| - itOut
    {
      var x := surv[itOut];
      assert surv[..itOut + 1][..itOut] == surv[..itOut];
      if x.entering != wOut {
        PushRecord(amp, qI, ampOut, qOut, keptOut, x);
        wOut := x.entering;
        qOut := qOut + [Intersection(x.point, x.index, |ampOut|, x.entering)];
        ampOut := ampOut + [Vertex(x.point, -1)];
        keptOut := keptOut + [x];
      }
      itOut := itOut + 1;
    }
  }

  /** The first step of `Add` for one part with surviving intersections:
      its vertices, with one extra vertex per kept intersection, are appended
      to `amp`, closed by a vertex that links back to the part's first one;
      each kept intersection is recorded for the second step. */
  method AmplifyPart(part: Ring, surv: seq<Intersection>, pMax: int, amp: seq<Vertex>, qI: seq<Intersection>,
                     ghost S: set<Point>)
    returns (ampOut: seq<Vertex>, qOut: seq<Intersection>)
    requires |part| > 0 && pMax == MaxOrderOf(part) && surv != []
    requires forall m :: 0 <= m < |surv| ==> 0 <= surv[m].order < pMax
    requires PointsIn(amp, S) && (forall v :: v in part ==> v in S) && forall x :: x in surv ==> x.point in S
    ensures PointsIn(ampOut, S)
    ensures var kept := Alternate(surv, surv[|surv| - 1].entering).kept;
            if |ampOut| == |amp| then PartStep(amp, qI, ampOut, qOut, kept)
            else
              && |ampOut| > |amp| + 1 && ampOut[|ampOut| - 1] == Vertex(ampOut[|amp|].point, |amp|)
              && PartStep(amp, qI, ampOut[..|ampOut| - 1], qOut, kept)
  {
    var w0 := surv[|surv| - 1].entering;
    var wasEntering := w0;
    var it := 0;
    ghost var kept: seq<Intersection> := [];
    ampOut, qOut := amp, qI;
    var pIndex := |amp|;
    var p := new Edge(part);
    while p.HasEdge()
      invariant p.Valid() && p.ring == part
      invariant it <= |surv| && (it == |surv| || surv[it].order >= p.Order())
      invariant Alternate(surv[..it], w0) == Alternation(kept, wasEntering)
      invariant PartStep(amp, qI, ampOut, qOut, kept) && PointsIn(ampOut, S)
      decreases |part| - p.it
    {
      // The sentinel's order is pMax, which a zero-length last edge also has.
      if (if it < |surv| then surv[it].order else pMax) != p.Order() {
        PushVertex(amp, qI, ampOut, qOut, kept, p.Start());
        assert p.Start() in part;
        ampOut := ampOut + [Vertex(p.Start(), -1)];
      }
      p.Next();
      it, wasEntering, kept, ampOut, qOut := TakeCrossings(surv, p.Order(), it, w0, wasEntering, kept, amp, qI, ampOut, qOut, S);
    }
    assert it == |surv|;
    assert surv[..it] == surv;
    if |ampOut| > pIndex {
      ampOut := ampOut + [Vertex(ampOut[pIndex].point, pIndex)];
    }
  }

  /** The entering records, in order: the places where a trace may start. */
  function EnteringOf(s: seq<Intersection>): (r: seq<Intersection>)
    ensures |r| <= |s|
    ensures forall x :: x in r ==> x in s && x.entering
  {
    if s == [] then []
    else EnteringOf(s[..|s| - 1]) + (if s[|s| - 1].entering then [s[|s| - 1]] else [])
  }

  /** Every record in s is an entering one or not; EnteringOf keeps exactly
      the former. */
  lemma {:induction false} EnteringOfComplete(s: seq<Intersection>)
    ensures forall x :: x in s && x.entering ==> x in EnteringOf(s)
  {
    if s != [] {
      var t := s[..|s| - 1];
      EnteringOfComplete(t);
      forall x | x in s && x.entering ensures x in EnteringOf(s) {
        if x != s[|s| - 1] {
          assert x in t by {
            var k :| 0 <= k < |s| && s[k] == x;
            assert k < |s| - 1 && t[k] == x;
          }
        }
      }
    }
  }

  /** One record of the second step: an entering one becomes a Q vertex
      linking to its P vertex, an exiting one links its P vertex to the new Q
      vertex. */
  function LinkRecord(amp: seq<Vertex>, x: Intersection): (r: seq<Vertex>)
    requires 0 <= x.index < |amp|
    ensures |r| == |amp| + 1 && r[|amp|].point == x.point
  {
    if x.entering then amp + [Vertex(x.point, x.index)]
    else amp[x.index := amp[x.index].(link := |amp|)] + [Vertex(x.point, -1)]
  }

  /** The state the loop of `AmplifyRing` keeps: the vertices of P keep their
      points, links stay well formed, and `starts` lists the Q vertices made
      for the entering records E, each still linking to its P vertex. */
  ghost predicate RingStep(amp0: seq<Vertex>, amp: seq<Vertex>, starts: seq<int>, E: seq<Intersection>,
                           S: set<Point>)
  {
    && |amp0| <= |amp| && (forall m :: 0 <= m < |amp0| ==> amp[m].point == amp0[m].point)
    && LinkedWell(amp) && PointsIn(amp, S)
    && |starts| == |E|
    && forall m :: 0 <= m < |starts| ==>
         |amp0| <= starts[m] < |amp| && amp[starts[m]] == Vertex(E[m].point, E[m].index)
  }

  /** A record whose P vertex has the same point keeps the step state. */
  lemma LinkRecordStep(amp0: seq<Vertex>, amp: seq<Vertex>, starts: seq<int>, E: seq<Intersection>,
                       S: set<Point>, x: Intersection, qMax: int)
    requires RingStep(amp0, amp, starts, E, S) && RecordOk(x, amp0, qMax)
    ensures RingStep(amp0, LinkRecord(amp, x), starts + (if x.entering then [|amp|] else []),
                     E + (if x.entering then [x] else []), S)
  {
    var r := LinkRecord(amp, x);
    assert amp[x.index].point == x.point;
    forall m | 0 <= m < |r|
      ensures r[m].link < |r| && (r[m].link >= 0 ==> r[r[m].link].point == r[m].point)
    {
      if m < |amp| && !(m == x.index && !x.entering) {
        assert r[m] == amp[m];
        if amp[m].link >= 0 {
          assert r[amp[m].link].point == amp[amp[m].link].point;
        }
      }
    }
  }

  /** The inner loop of the second step: consumes the records that lie before
      `bound` on Q. */
  method TakeRecords(qSorted: seq<Intersection>, bound: int, it: nat, qMax: int, amp0: seq<Vertex>,
                     ampIn: seq<Vertex>, startsIn: seq<int>, ghost S: set<Point>)
    returns (itOut: nat, ampOut: seq<Vertex>, starts: seq<int>)
    requires it <= |qSorted| && RecordsAt(qSorted, amp0, qMax)
    requires RingStep(amp0, ampIn, startsIn, EnteringOf(qSorted[..it]), S) && |ampIn| >= |amp0| + it
    ensures it <= itOut <= |qSorted| && (itOut == |qSorted| || qSorted[itOut].order >= bound)
    ensures RingStep(amp0, ampOut, starts, EnteringOf(qSorted[..itOut]), S) && |ampOut| >= |amp0| + itOut
  {
    itOut, ampOut, starts := it, ampIn, startsIn;
    while itOut < |qSorted| && qSorted[itOut].order < bound
      invariant it <= itOut <= |qSorted|
      invariant RingStep(amp0, ampOut, starts, EnteringOf(qSorted[..itOut]), S) && |ampOut| >= |amp0| + itOut
      decreases |qSorted| - itOut
    {
      var x := qSorted[itOut];
      assert qSorted[..itOut + 1][..itOut] == qSorted[..itOut];
      assert RecordOk(x, amp0, qMax);
      LinkRecordStep(amp0, ampOut, starts, EnteringOf(qSorted[..itOut]), S, x, qMax);
      ghost var linked := LinkRecord(ampOut, x);
      if x.entering {
        starts := starts + [|ampOut|];
      }
      if !x.entering {
        ampOut := ampOut[x.index := ampOut[x.index].(link := |ampOut|)];
      }
      ampOut := ampOut + [Vertex(x.point, -1)];
      if x.entering {
        ampOut := ampOut[|ampOut| - 1 := ampOut[|ampOut| - 1].(link := x.index)];
      }
      assert ampOut == linked;
      itOut := itOut + 1;
    }
  }

  /** The second step of `Add`: Q's vertices, with one extra vertex per
      record, are appended to `amp`, closed by a vertex that links back to
      Q's first one; entering records link the new Q vertex to its P vertex,
      exiting ones link the P vertex to the new Q vertex, and the entering Q
      vertices are returned as trace starts. */
  method AmplifyRing(ring: Ring, qSorted: seq<Intersection>, qMax: int, amp: seq<Vertex>, ghost S: set<Point>)
    returns (ampOut: seq<Vertex>, starts: seq<int>)
    requires |ring| > 0 && qMax == MaxOrderOf(ring) && qSorted != []
    requires RecordsAt(qSorted, amp, qMax) && LinkedWell(amp)
    requires PointsIn(amp, S) && forall v :: v in ring ==> v in S
    ensures LinkedWell(ampOut) && PointsIn(ampOut, S)
    ensures |ampOut| > |amp| + 1 && ampOut[|ampOut| - 1] == Vertex(ampOut[|amp|].point, |amp|)
    ensures forall m :: 0 <= m < |amp| ==> ampOut[m].point == amp[m].point
    ensures var E := EnteringOf(qSorted);
            && |starts| == |E|
            && forall m :: 0 <= m < |starts| ==>
                 |amp| <= starts[m] < |ampOut| && ampOut[starts[m]] == Vertex(E[m].point, E[m].index)
  {
    var qIndex := |amp|;
    ampOut, starts := amp, [];
    var it := 0;
    var q := new Edge(ring);
    assert RecordOk(qSorted[0], amp, qMax);
    while q.HasEdge()
      invariant q.Valid() && q.ring == ring
      invariant it <= |qSorted| && (it == |qSorted| || qSorted[it].order >= q.Order())
      invariant RingStep(amp, ampOut, starts, EnteringOf(qSorted[..it]), S) && |ampOut| >= |amp| + it
      decreases |ring| - q.it
    {
      // The sentinel's order is qMax, which a zero-length last edge also has.
      if (if it < |qSorted| then qSorted[it].order else qMax) != q.Order() {
        assert q.Start() in ring;
        ampOut := ampOut + [Vertex(q.Start(), -1)];
      }
      q.Next();
      OrderMonotone(ring, q.it, |ring|);
      it, ampOut, starts := TakeRecords(qSorted, q.Order(), it, qMax, amp, ampOut, starts, S);
    }
    forall k | 0 <= k < |qSorted|
      ensures qSorted[k].order < qMax
    {
      assert RecordOk(qSorted[k], amp, qMax);
    }
    assert it == |qSorted|;
    assert qSorted[..it] == qSorted;
    ampOut := ampOut + [Vertex(ampOut[qIndex].point, qIndex)];
  }

  /** Together with the LinkedWell invariant, what the first step leaves
      behind for one part is well formed: the new links join copies of the
      same point, and every record names a vertex of its own point. */
  lemma AfterPart(amp: seq<Vertex>, qI: seq<Intersection>, ampOut: seq<Vertex>, qOut: seq<Intersection>,
                  kept: seq<Intersection>, qMax: int)
    requires LinkedWell(amp) && RecordsAt(qI, amp, qMax)
    requires forall x :: x in kept ==> 0 <= x.index < qMax
    requires if |ampOut| == |amp| then PartStep(amp, qI, ampOut, qOut, kept)
             else
               && |ampOut| > |amp| + 1 && ampOut[|ampOut| - 1] == Vertex(ampOut[|amp|].point, |amp|)
               && PartStep(amp, qI, ampOut[..|ampOut| - 1], qOut, kept)
    ensures LinkedWell(ampOut) && RecordsAt(qOut, ampOut, qMax) && |qOut| == |qI| + |kept|
  {
    var body := if |ampOut| == |amp| then ampOut else ampOut[..|ampOut| - 1];
    assert PartStep(amp, qI, body, qOut, kept);
    assert forall m :: 0 <= m < |body| ==> ampOut[m] == body[m];
    forall m | 0 <= m < |ampOut|
      ensures ampOut[m].link < |ampOut| && (ampOut[m].link >= 0 ==> ampOut[ampOut[m].link].point == ampOut[m].point)
    {
      if m < |amp| {
        assert ampOut[m] == body[m] == amp[m];
        if amp[m].link >= 0 {
          assert ampOut[amp[m].link] == body[amp[m].link] == amp[amp[m].link];
        }
      }
    }
    forall x | x in qOut ensures RecordOk(x, ampOut, qMax) {
      var k :| 0 <= k < |qOut| && qOut[k] == x;
      if k < |qI| {
        assert qOut[..|qI|][k] == qI[k];
        assert qI[k] in qI;
        assert ampOut[x.index] == body[x.index] == amp[x.index];
      } else {
        assert Records(qOut[|qI| + (k - |qI|)], kept[k - |qI|], body, |amp|);
        assert kept[k - |qI|] in kept;
      }
    }
  }

  /** How many links are still to be followed. */
  function LiveLinks(amp: seq<Vertex>): nat
  {
    if amp == [] then 0 else LiveLinks(amp[..|amp| - 1]) + (if amp[|amp| - 1].link >= 0 then 1 else 0)
  }

  /** Disconnecting a live link leaves one fewer to follow. */
  lemma {:induction false} LiveLinksCut(amp: seq<Vertex>, j: nat)
    requires j < |amp| && amp[j].link >= 0
    ensures LiveLinks(amp[j := amp[j].(link := -2)]) == LiveLinks(amp) - 1
    decreases |amp|
  {
    var cut := amp[j := amp[j].(link := -2)];
    var n := |amp| - 1;
    if j == n {
      assert cut[..n] == amp[..n];
    } else {
      assert cut[..n] == amp[..n][j := amp[j].(link := -2)];
      LiveLinksCut(amp[..n], j);
    }
  }

  /** The do-while of the third step, from one entering Q vertex: a vertex
      with a live link is left through it and the link disconnected, any
      other vertex is output. It ends back at `index`, or where the source
      would read past the end of the vector. */
  method TraceFrom(amp: seq<Vertex>, index: nat, ghost S: set<Point>) returns (out: Ring, ampOut: seq<Vertex>)
    requires LinkedWell(amp) && PointsIn(amp, S) && index < |amp|
    ensures LinkedWell(ampOut) && PointsIn(ampOut, S) && |ampOut| == |amp|
    ensures LiveLinks(ampOut) <= LiveLinks(amp)
    ensures forall k :: 0 <= k < |amp| ==>
              ampOut[k].point == amp[k].point && (ampOut[k].link == amp[k].link || ampOut[k].link == -2)
    ensures forall k :: 0 <= k < |out| ==> out[k] in S
  {
    var j := index;
    var first := true;
    ampOut, out := amp, [];
    while first || (j != index && j < |ampOut|)
      invariant LinkedWell(ampOut) && PointsIn(ampOut, S) && |ampOut| == |amp|
      invariant LiveLinks(ampOut) <= LiveLinks(amp)
      invariant forall k :: 0 <= k < |amp| ==>
                  ampOut[k].point == amp[k].point && (ampOut[k].link == amp[k].link || ampOut[k].link == -2)
      invariant 0 <= j <= |ampOut| && (first ==> j == index)
      invariant forall k :: 0 <= k < |out| ==> out[k] in S
      decreases LiveLinks(ampOut), |ampOut| - j
    {
      first := false;
      if ampOut[j].link >= 0 {
        var next := ampOut[j].link;
        LiveLinksCut(ampOut, j);
        ampOut := ampOut[j := ampOut[j].(link := -2)];
        j := next;
      } else {
        out := out + [ampOut[j].point];
        j := j + 1;
      }
    }
  }

  /** The third step: one trace from each entering Q vertex whose link is
      still live; traces of fewer than three vertices are dropped. */
  method Trace(amp: seq<Vertex>, starts: seq<int>, ghost S: set<Point>) returns (rings: Polygon)
    requires LinkedWell(amp) && PointsIn(amp, S)
    requires forall m :: 0 <= m < |starts| ==> 0 <= starts[m] < |amp|
    ensures forall k :: 0 <= k < |rings| ==> |rings[k]| >= 3 && forall v :: v in rings[k] ==> v in S
  {
    var cur := amp;
    rings := [];
    for n := 0 to |starts|
      invariant LinkedWell(cur) && PointsIn(cur, S) && |cur| == |amp|
      invariant forall k :: 0 <= k < |rings| ==> |rings[k]| >= 3 && forall v :: v in rings[k] ==> v in S
    {
      var index := starts[n];
      if cur[index].link >= 0 {
        var out;
        out, cur := TraceFrom(cur, index, S);
        if |out| >= 3 {
          rings := rings + [out];
        }
      }
    }
  }

  /** The vertices of the first n parts and their surviving crossings with Q. */
  ghost function PartPoints(P: Polygon, T: seq<seq<Intersection>>, n: nat): set<Point>
    requires n <= |P| == |T|
  {
    if n == 0 then {}
    else
      var part := P[n - 1];
      var surv := T[n - 1];
      PartPoints(P, T, n - 1) + (set v | v in part) + (set x | x in surv :: x.point)
  }

  /** Every point a union of P and Q may use: the vertices of both and the
      points where they cross. */
  ghost function InputPoints(P: Polygon, T: seq<seq<Intersection>>, ring: Ring): set<Point>
    requires |P| == |T|
  {
    PartPoints(P, T, |P|) + (set v | v in ring)
  }

  lemma {:induction false} PartPointsCover(P: Polygon, T: seq<seq<Intersection>>, n: nat, k: nat)
    requires k < n <= |P| == |T|
    ensures forall v :: v in P[k] ==> v in PartPoints(P, T, n)
    ensures forall x :: x in T[k] ==> x.point in PartPoints(P, T, n)
  {
    if k < n - 1 {
      PartPointsCover(P, T, n - 1, k);
    }
  }

  /** The intersections of part i with Q, found, sorted and rid of doubles. */
  method PartSurvivors(P: Polygon, i: nat, ring: Ring, isHole: bool, pMax: int, qMax: int,
                       ghost T: seq<seq<Intersection>>)
    returns (surv: seq<Intersection>)
    requires i < |P| && AllNonEmpty(P) && |ring| > 0 && SurvivorsOf(P, ring, isHole, T)
    requires pMax == MaxOrderOf(P[i]) && qMax == MaxOrderOf(ring)
    ensures surv == T[i] && StrictlyIncreasing(surv)
    ensures forall m :: 0 <= m < |surv| ==> 0 <= surv[m].order < pMax && 0 <= surv[m].index < qMax
  {
    surv := FindSurvivors(P[i], ring, isHole, pMax, qMax);
    SurvivorsShape(P[i], ring, isHole);
  }

  /** The finding, sorting and compacting of `PartSurvivors`, the last in a
      buffer as the source does it. */
  method FindSurvivors(part: Ring, ring: Ring, isHole: bool, pMax: int, qMax: int) returns (surv: seq<Intersection>)
    requires |part| > 0 && |ring| > 0
    requires pMax == MaxOrderOf(part) && qMax == MaxOrderOf(ring)
    ensures surv == Survivors(part, ring, isHole)
  {
    var found := FindIntersections(part, ring, isHole, pMax, qMax);
    surv := Compact(SortByOrder(found));
  }

  /** `RemoveDoubles` run on a fresh buffer holding `sorted`. */
  method Compact(sorted: seq<Intersection>) returns (surv: seq<Intersection>)
    ensures surv == RemoveDoublesOf(sorted)
  {
    var buffer := new Intersection[|sorted|](k requires 0 <= k < |sorted| => sorted[k]);
    assert buffer[..] == sorted;
    var len := RemoveDoubles(buffer);
    surv := buffer[..len];
  }

  /** What the first step has built after the first i parts. */
  ghost predicate PartsDone(P: Polygon, T: seq<seq<Intersection>>, ring: Ring, qMax: int, S: set<Point>, i: nat,
                            result: Polygon, smallestContainer: Option<Ring>, amp: seq<Vertex>, qI: seq<Intersection>)
    requires i <= |P| == |T| && AllNonEmpty(P) && |ring| > 0
  {
    && result == KeptParts(P, T, ring, i)
    && smallestContainer == Container(P, T, ring, i)
    && (qI == [] <==> forall k :: 0 <= k < i ==> Toggles(T[k]) == [])
    && LinkedWell(amp) && PointsIn(amp, S) && RecordsAt(qI, amp, qMax)
  }

  /** The first step of `Add` for part i of P: a part that Q does not cross
      is kept unless Q covers it, and may become the smallest container of
      Q; any other part is amplified. */
  method AddPart(P: Polygon, ghost T: seq<seq<Intersection>>, i: nat, ring: Ring, isHole: bool, qMax: int,
                 result: Polygon, smallestContainer: Option<Ring>, amp: seq<Vertex>, qI: seq<Intersection>,
                 ghost S: set<Point>)
    returns (resultOut: Polygon, containerOut: Option<Ring>, ampOut: seq<Vertex>, qOut: seq<Intersection>)
    requires i < |P| && AllNonEmpty(P) && |ring| > 0 && qMax == MaxOrderOf(ring)
    requires SurvivorsOf(P, ring, isHole, T) && S == InputPoints(P, T, ring)
    requires PartsDone(P, T, ring, qMax, S, i, result, smallestContainer, amp, qI)
    ensures PartsDone(P, T, ring, qMax, S, i + 1, resultOut, containerOut, ampOut, qOut)
  {
    var part := P[i];
    var pMax := MaxOrder(part);
    var surv := PartSurvivors(P, i, ring, isHole, pMax, qMax, T);
    if surv == [] {
      resultOut, containerOut := KeepPart(P, T, i, ring, result, smallestContainer);
      ampOut, qOut := amp, qI;
    } else {
      resultOut, containerOut := result, smallestContainer;
      PartPointsCover(P, T, |P|, i);
      ampOut, qOut := CrossPart(part, surv, pMax, qMax, amp, qI, S);
    }
    TogglesStep(T, i, qI, qOut);
  }

  /** A part that Q does not cross: kept unless Q covers it, and the new
      smallest container of Q when it lies around Q inside the previous one. */
  method KeepPart(P: Polygon, ghost T: seq<seq<Intersection>>, i: nat, ring: Ring, result: Polygon,
                  smallestContainer: Option<Ring>)
    returns (resultOut: Polygon, containerOut: Option<Ring>)
    requires i < |P| == |T| && AllNonEmpty(P) && |ring| > 0 && T[i] == []
    requires result == KeptParts(P, T, ring, i)
    requires smallestContainer == Container(P, T, ring, i)
    ensures resultOut == KeptParts(P, T, ring, i + 1)
    ensures containerOut == Container(P, T, ring, i + 1)
  {
    var part := P[i];
    resultOut, containerOut := result, smallestContainer;
    if !ContainsRing(ring, part) {
      resultOut := resultOut + [part];
      if ContainsRing(part, ring) && (containerOut.None? || ContainsRing(containerOut.value, part)) {
        containerOut := Some(part);
      }
    }
  }

  /** A part that Q crosses: amplified, with as many records as it has
      toggles. */
  method CrossPart(part: Ring, surv: seq<Intersection>, pMax: int, qMax: int,
                   amp: seq<Vertex>, qI: seq<Intersection>, ghost S: set<Point>)
    returns (ampOut: seq<Vertex>, qOut: seq<Intersection>)
    requires |part| > 0 && pMax == MaxOrderOf(part) && surv != []
    requires forall m :: 0 <= m < |surv| ==> 0 <= surv[m].order < pMax && 0 <= surv[m].index < qMax
    requires (forall v :: v in part ==> v in S) && forall x :: x in surv ==> x.point in S
    requires LinkedWell(amp) && PointsIn(amp, S) && RecordsAt(qI, amp, qMax)
    ensures LinkedWell(ampOut) && PointsIn(ampOut, S) && RecordsAt(qOut, ampOut, qMax)
    ensures |qOut| == |qI| + |Toggles(surv)|
  {
    ampOut, qOut := AmplifyPart(part, surv, pMax, amp, qI, S);
    ghost var kept := Alternate(surv, surv[|surv| - 1].entering).kept;
    AlternateShape(surv, surv[|surv| - 1].entering);
    assert forall x :: x in kept ==> 0 <= x.index < qMax by {
      forall x | x in kept ensures 0 <= x.index < qMax {
        var m :| 0 <= m < |surv| && surv[m] == x;
      }
    }
    AfterPart(amp, qI, ampOut, qOut, kept, qMax);
  }

  /** The records are empty after part i exactly when no part up to i has a
      toggle, given that part i added as many records as it has toggles. */
  lemma TogglesStep(T: seq<seq<Intersection>>, i: nat, qI: seq<Intersection>, qOut: seq<Intersection>)
    requires i < |T|
    requires qI == [] <==> forall k :: 0 <= k < i ==> Toggles(T[k]) == []
    requires |qOut| == |qI| + |Toggles(T[i])|
    ensures qOut == [] <==> forall k :: 0 <= k < i + 1 ==> Toggles(T[k]) == []
  {
  }

  /** What `Add(ring)` leaves of P: the parts that Q neither crosses nor
      covers are kept as they are and come first. With no crossing at all, Q
      is added exactly when its polarity differs from that of the smallest
      kept part around it; otherwise the traced rings follow, each with at
      least three vertices, all of them vertices of P or Q or points where
      the two cross. */
  ghost predicate AddResult(P: Polygon, ring: Ring, result: Polygon)
  {
    && AllNonEmpty(P) && |ring| > 0 && AllNonEmpty(result)
    && var T := SurvivorTable(P, ring, IsHole(ring));
       var kept := KeptParts(P, T, ring, |P|);
       && |kept| <= |result| && result[..|kept|] == kept
       && (NoToggles(T) ==> result == UntouchedUnion(P, T, ring))
       && (!NoToggles(T) ==>
             forall k :: |kept| <= k < |result| ==>
               |result[k]| >= 3 && forall v :: v in result[k] ==> v in InputPoints(P, T, ring))
  }

  /** `Add(ring)`: replaces P by its union with Q (its difference when Q is a
      hole), as `AddResult` describes. */
  method Add(P: Polygon, ring: Ring) returns (result: Polygon)
    requires AllNonEmpty(P) && |ring| > 0
    ensures AllNonEmpty(result)
    ensures AddResult(P, ring, result)
  {
    var qMax := MaxOrder(ring);
    var area := DoubledArea(ring);
    var isHole := area < 0;
    ghost var T := SurvivorTable(P, ring, isHole);
    ghost var S := InputPoints(P, T, ring);
    var kept, smallestContainer, amp, qI := AmplifyParts(P, T, ring, isHole, qMax, S);
    if qI == [] {
      result := UntouchedResult(P, T, ring, isHole, kept, smallestContainer);
    } else {
      result := TracedResult(ring, qMax, kept, amp, qI, S);
    }
  }

  /** The first step over every part of P. */
  method AmplifyParts(P: Polygon, ghost T: seq<seq<Intersection>>, ring: Ring, isHole: bool, qMax: int, ghost S: set<Point>)
    returns (result: Polygon, smallestContainer: Option<Ring>, amp: seq<Vertex>, qI: seq<Intersection>)
    requires AllNonEmpty(P) && |ring| > 0 && qMax == MaxOrderOf(ring)
    requires SurvivorsOf(P, ring, isHole, T) && S == InputPoints(P, T, ring)
    ensures result == KeptParts(P, T, ring, |P|)
    ensures smallestContainer == Container(P, T, ring, |P|)
    ensures qI == [] <==> NoToggles(T)
    ensures LinkedWell(amp) && PointsIn(amp, S) && RecordsAt(qI, amp, qMax)
  {
    result, smallestContainer, amp, qI := [], None, [], [];
    for i := 0 to |P|
      invariant PartsDone(P, T, ring, qMax, S, i, result, smallestContainer, amp, qI)
    {
      result, smallestContainer, amp, qI := AddPart(P, T, i, ring, isHole, qMax, result, smallestContainer, amp, qI, S);
    }
  }

  /** The second step when no part recorded a crossing. */
  method UntouchedResult(P: Polygon, ghost T: seq<seq<Intersection>>, ring: Ring, isHole: bool, result: Polygon,
                         smallestContainer: Option<Ring>)
    returns (resultOut: Polygon)
    requires |P| == |T| && AllNonEmpty(P) && |ring| > 0 && isHole == IsHole(ring)
    requires result == KeptParts(P, T, ring, |P|)
    requires smallestContainer == Container(P, T, ring, |P|)
    ensures resultOut == UntouchedUnion(P, T, ring) && AllNonEmpty(resultOut)
  {
    var containerIsHole := true;
    if smallestContainer.Some? {
      var a := DoubledArea(smallestContainer.value);
      containerIsHole := a < 0;
    }
    resultOut := result;
    if containerIsHole != isHole {
      resultOut := resultOut + [ring];
    }
  }

  /** The second and third steps when parts recorded crossings: the traced
      rings are appended to the kept parts. */
  method TracedResult(ring: Ring, qMax: int, result: Polygon, amp: seq<Vertex>, qI: seq<Intersection>,
                      ghost S: set<Point>)
    returns (resultOut: Polygon)
    requires |ring| > 0 && qMax == MaxOrderOf(ring) && qI != [] && AllNonEmpty(result)
    requires LinkedWell(amp) && PointsIn(amp, S) && RecordsAt(qI, amp, qMax) && forall v :: v in ring ==> v in S
    ensures |result| <= |resultOut| && resultOut[..|result|] == result && AllNonEmpty(resultOut)
    ensures forall k :: |result| <= k < |resultOut| ==>
              |resultOut[k]| >= 3 && forall v :: v in resultOut[k] ==> v in S
  {
    var qSorted := SortByOrder(qI);
    assert RecordsAt(qSorted, amp, qMax) by {
      forall x | x in qSorted ensures RecordOk(x, amp, qMax) {
        assert x in multiset(qSorted);
        assert x in multiset(qI);
      }
    }
    var ampOut, starts := AmplifyRing(ring, qSorted, qMax, amp, S);
    var traced := Trace(ampOut, starts, S);
    resultOut := result + traced;
  }
}
