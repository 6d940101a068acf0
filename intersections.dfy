// The building blocks of polygon union: the maximum order of a ring, the
// intersection records found between two rings' edges, their sorting by
// order, and the removal of "doubles" (touching corners that do not cross).
module Intersections {
  import opened Ints
  import opened Points
  import opened Edges

  // ---------------------------------------------------------------------
  // MaxOrder

  /** The order reached after the last edge of a ring. */
  function MaxOrderOf(ring: seq<Point>): int
    requires |ring| > 0
  {
    OrderAt(ring, |ring|)
  }

  /** `MaxOrder`: walk an `Edge` off the end of the ring and read its order,
      which is the sum of the squared lengths of all the ring's edges. */
  method MaxOrder(ring: seq<Point>) returns (r: int)
    requires |ring| > 0
    ensures r == MaxOrderOf(ring) && r == LoopSquares(ring)
    ensures r >= 0
  {
    var edge := new Edge(ring);
    while edge.HasEdge()
      invariant edge.Valid() && edge.ring == ring
      decreases |ring| - edge.it
    {
      edge.Next();
    }
    r := edge.Order();
    TotalOrder(ring);
  }

  /** Every edge fits inside the ring's order range; a ring with an edge of
      nonzero length has a positive maximum order. */
  lemma EdgeWithinMaxOrder(ring: seq<Point>, k: nat)
    requires k < |ring|
    ensures 0 <= OrderAt(ring, k)
    ensures OrderAt(ring, k) + VectorAt(ring, k).LengthSquared() <= MaxOrderOf(ring)
    ensures VectorAt(ring, k).NonZero() ==> MaxOrderOf(ring) > 0
  {
    OrderMonotone(ring, k, k);
    OrderMonotone(ring, k + 1, |ring|);
  }

  /** An edge of order `order` and vector `v` fits in the order range `max`. */
  predicate Fits(order: int, v: Point, max: int) {
    0 <= order && order + v.LengthSquared() <= max
  }

  lemma EdgeFits(ring: seq<Point>, k: nat)
    requires k < |ring|
    ensures Fits(OrderAt(ring, k), VectorAt(ring, k), MaxOrderOf(ring))
  {
    EdgeWithinMaxOrder(ring, k);
  }

  // ---------------------------------------------------------------------
  // Where two edges cross

  /** The cross product of two edge vectors and the two crossing parameters,
      with the signs normalised so that `cross` is not negative. */
  datatype Crossing = Crossing(cross: int, pT: int, qT: int)

  /** For the lines through `pS` along `pV` and through `qS` along `qV`:
      `cross = pV x qV`, `pT = d x qV` and `qT = d x pV` with `d = qS - pS`,
      all three negated when `cross` is negative. */
  function NormalCrossing(pS: Point, pV: Point, qS: Point, qV: Point): (c: Crossing)
    ensures c.cross == Abs(pV.Cross(qV))
  {
    var cross := pV.Cross(qV);
    var d := qS.Minus(pS);
    var pT := d.Cross(qV);
    var qT := d.Cross(pV);
    if cross < 0 then Crossing(-cross, -pT, -qT) else Crossing(cross, pT, qT)
  }

  /** `(p x q) d == (d x q) p - (d x p) q`, one coordinate at a time. */
  lemma CrossIdentityX(dx: int, dy: int, px: int, py: int, qx: int, qy: int)
    ensures (px * qy - py * qx) * dx == (dx * qy - dy * qx) * px - (dx * py - dy * px) * qx
  {
    assert (dx * qy - dy * qx) * px == dx * qy * px - dy * qx * px;
    assert (dx * py - dy * px) * qx == dx * py * qx - dy * px * qx;
    assert (px * qy - py * qx) * dx == px * qy * dx - py * qx * dx;
  }

  lemma CrossIdentityY(dx: int, dy: int, px: int, py: int, qx: int, qy: int)
    ensures (px * qy - py * qx) * dy == (dx * qy - dy * qx) * py - (dx * py - dy * px) * qy
  {
    assert (dx * qy - dy * qx) * py == dx * qy * py - dy * qx * py;
    assert (dx * py - dy * px) * qy == dx * py * qy - dy * px * qy;
    assert (px * qy - py * qx) * dy == px * qy * dy - py * qx * dy;
  }

  /** The lines meet at `pS + pV * pT / cross`, which is also
      `qS + qV * qT / cross`: multiplied through by `cross`, the two
      parametrisations give the same point. */
  lemma CrossingMeets(pS: Point, pV: Point, qS: Point, qV: Point)
    ensures var c := NormalCrossing(pS, pV, qS, qV);
            pS.Times(c.cross).Plus(pV.Times(c.pT)) == qS.Times(c.cross).Plus(qV.Times(c.qT))
  {
    var d := qS.Minus(pS);
    var cross := pV.Cross(qV);
    var pT, qT := d.Cross(qV), d.Cross(pV);
    CrossIdentityX(d.x, d.y, pV.x, pV.y, qV.x, qV.y);
    CrossIdentityY(d.x, d.y, pV.x, pV.y, qV.x, qV.y);
    assert cross * d.x == pT * pV.x - qT * qV.x;
    assert cross * d.y == pT * pV.y - qT * qV.y;
    var c := NormalCrossing(pS, pV, qS, qV);
    assert c.cross * d.x == c.pT * pV.x - c.qT * qV.x;
    assert c.cross * d.y == c.pT * pV.y - c.qT * qV.y;
    assert c.cross * d.x == qS.x * c.cross - pS.x * c.cross;
    assert c.cross * d.y == qS.y * c.cross - pS.y * c.cross;
  }

  /** `v * t / cross` rounded toward zero per coordinate, in 64-bit math. */
  function Along(v: Point, t: int, cross: int): Point
    requires cross > 0
  {
    Point(Quot(t * v.x, cross), Quot(t * v.y, cross))
  }

  /** For `0 <= t <= cross` the offset stays within the edge vector's box, so
      its squared length is at most the edge's. */
  lemma AlongWithinEdge(v: Point, t: int, cross: int)
    requires cross > 0 && 0 <= t <= cross
    ensures var a := Along(v, t, cross);
            Abs(a.x) <= Abs(v.x) && Abs(a.y) <= Abs(v.y) && a.LengthSquared() <= v.LengthSquared()
  {
    var a := Along(v, t, cross);
    AbsProduct(t, v.x);
    AbsProduct(t, v.y);
    MulMono(t, cross, Abs(v.x), Abs(v.x));
    MulMono(t, cross, Abs(v.y), Abs(v.y));
    QuotBound(t * v.x, cross, Abs(v.x));
    QuotBound(t * v.y, cross, Abs(v.y));
    SquareMono(a.x, v.x);
    SquareMono(a.y, v.y);
  }

  // ---------------------------------------------------------------------
  // Intersection records

  /** An intersection of P and Q: its point, its order around P, its `index`
      (the order around Q while P is scanned; later the index of the matching
      amplified vertex) and whether P enters Q there. */
  datatype Intersection = Intersection(point: Point, order: int, index: int, entering: bool)

  /** Edges that are not parallel both have nonzero length. */
  lemma NonParallel(pV: Point, qV: Point)
    requires pV.Cross(qV) != 0
    ensures pV.NonZero() && qV.NonZero()
  {
  }

  /** Whether an edge pair is recorded: the edges are not parallel and the
      crossing lies within both, endpoints included. */
  predicate Crosses(c: Crossing)
  {
    c.cross != 0 && 0 <= c.qT <= c.cross && 0 <= c.pT <= c.cross
  }

  /** `a % m` for `0 <= a <= m`: the order range wraps so that the end of the
      last edge coincides with the start of the first. Both operands are
      non-negative, where C++'s remainder and Dafny's agree. */
  function Wrap(a: int, m: int): (r: int)
    requires 0 <= a <= m && m > 0
    ensures 0 <= r < m
    ensures r == a || (a == m && r == 0)
  {
    a % m
  }

  /** The order around a ring of the point `d` past an edge's start, when the
      edge's own order is `order`. */
  function OrderPast(order: int, d: Point, v: Point, max: int, t: int, cross: int): (r: int)
    requires Fits(order, v, max)
    requires cross > 0 && 0 <= t <= cross && d == Along(v, t, cross) && v.NonZero()
    ensures 0 <= r < max
    ensures var raw := order + d.LengthSquared();
            order <= raw <= order + v.LengthSquared() && (r == raw || (raw == max && r == 0))
  {
    AlongWithinEdge(v, t, cross);
    Wrap(order + d.Dot(d), max)
  }

  /** The intersection of two crossing edges: the point on p, its order
      around P, its order around Q, and whether P enters Q there. */
  function Hit(pS: Point, pV: Point, pOrder: int, qS: Point, qV: Point, qOrder: int,
               isHole: bool, pMax: int, qMax: int): (x: Intersection)
    requires Fits(pOrder, pV, pMax) && Fits(qOrder, qV, qMax)
    requires Crosses(NormalCrossing(pS, pV, qS, qV))
    ensures 0 <= x.order < pMax && 0 <= x.index < qMax
    ensures x.entering == ((pV.Cross(qV) > 0) != isHole)
  {
    var c := NormalCrossing(pS, pV, qS, qV);
    NonParallel(pV, qV);
    var dP := Along(pV, c.pT, c.cross);
    var dQ := Along(qV, c.qT, c.cross);
    Intersection(pS.Plus(dP), OrderPast(pOrder, dP, pV, pMax, c.pT, c.cross),
                 OrderPast(qOrder, dQ, qV, qMax, c.qT, c.cross), (pV.Cross(qV) > 0) != isHole)
  }

  /** The intersection recorded for edge p (start `pS`, vector `pV`, order
      `pOrder`) against edge q of the ring being added: one exactly when the
      edges cross, none otherwise. */
  function Intersect(pS: Point, pV: Point, pOrder: int, qS: Point, qV: Point, qOrder: int,
                     isHole: bool, pMax: int, qMax: int): (r: seq<Intersection>)
    requires Fits(pOrder, pV, pMax) && Fits(qOrder, qV, qMax)
    ensures |r| <= 1
    ensures r != [] ==> 0 <= r[0].order < pMax && 0 <= r[0].index < qMax
    ensures r != [] <==> Crosses(NormalCrossing(pS, pV, qS, qV))
    ensures r != [] ==> r[0].entering == ((pV.Cross(qV) > 0) != isHole)
  {
    if !Crosses(NormalCrossing(pS, pV, qS, qV)) then []
    else [Hit(pS, pV, pOrder, qS, qV, qOrder, isHole, pMax, qMax)]
  }

  /** The recorded point lies within the bounding box of edge p, on its side
      of the start, and its order before the reduction lies between the orders
      of the edge's two ends; the reduction only changes it when it reaches
      the maximum, giving 0. */
  lemma IntersectOnEdge(pS: Point, pV: Point, pOrder: int, qS: Point, qV: Point, qOrder: int,
                        isHole: bool, pMax: int, qMax: int)
    requires Fits(pOrder, pV, pMax) && Fits(qOrder, qV, qMax)
    requires Intersect(pS, pV, pOrder, qS, qV, qOrder, isHole, pMax, qMax) != []
    ensures var x := Intersect(pS, pV, pOrder, qS, qV, qOrder, isHole, pMax, qMax)[0];
            var d := x.point.Minus(pS);
            && Abs(d.x) <= Abs(pV.x) && Abs(d.y) <= Abs(pV.y)
            && (d.x == 0 || (d.x < 0 <==> pV.x < 0)) && (d.y == 0 || (d.y < 0 <==> pV.y < 0))
            && var raw := pOrder + d.LengthSquared();
               pOrder <= raw <= pOrder + pV.LengthSquared()
               && (x.order == raw || (raw == pMax && x.order == 0))
  {
    var c := NormalCrossing(pS, pV, qS, qV);
    var dP := Along(pV, c.pT, c.cross);
    AlongWithinEdge(pV, c.pT, c.cross);
    var x := Intersect(pS, pV, pOrder, qS, qV, qOrder, isHole, pMax, qMax)[0];
    assert x.point.Minus(pS) == dP;
    AlongSign(pV.x, c.pT, c.cross);
    AlongSign(pV.y, c.pT, c.cross);
  }

  lemma AlongSign(v: int, t: int, cross: int)
    requires cross > 0 && 0 <= t
    ensures var q := Quot(t * v, cross); q == 0 || (q < 0 <==> v < 0)
  {
    var q := Quot(t * v, cross);
    if v < 0 {
      assert t * v <= 0;
    } else {
      assert t * v >= 0;
    }
    if t * v >= 0 && q < 0 {
      assert false;
    }
    if t * v <= 0 && q > 0 {
      assert false;
    }
  }

  /** The intersections of edge i of `part` with the first m edges of `ring`. */
  function Row(part: seq<Point>, ring: seq<Point>, isHole: bool, i: nat, m: nat): (r: seq<Intersection>)
    requires i < |part| && m <= |ring|
    ensures |r| <= m
  {
    if m == 0 then []
    else
      EdgeFits(part, i);
      EdgeFits(ring, m - 1);
      Row(part, ring, isHole, i, m - 1)
        + Intersect(StartAt(part, i), VectorAt(part, i), OrderAt(part, i),
                    StartAt(ring, m - 1), VectorAt(ring, m - 1), OrderAt(ring, m - 1),
                    isHole, MaxOrderOf(part), MaxOrderOf(ring))
  }

  /** All intersections of the first n edges of `part` with `ring`, edge by edge. */
  function Rows(part: seq<Point>, ring: seq<Point>, isHole: bool, n: nat): (r: seq<Intersection>)
    requires n <= |part| && |ring| > 0
    ensures |r| <= n * |ring|
  {
    if n == 0 then [] else Rows(part, ring, isHole, n - 1) + Row(part, ring, isHole, n - 1, |ring|)
  }

  /** Every intersection of `s` has its order below `pMax` and its index below `qMax`. */
  predicate WithinOrders(s: seq<Intersection>, pMax: int, qMax: int) {
    forall x :: x in s ==> 0 <= x.order < pMax && 0 <= x.index < qMax
  }

  /** Every candidate's order lies in P's order range and its index in Q's. */
  lemma {:induction false} RowBounds(part: seq<Point>, ring: seq<Point>, isHole: bool, i: nat, m: nat)
    requires i < |part| && 0 < |ring| && m <= |ring|
    ensures WithinOrders(Row(part, ring, isHole, i, m), MaxOrderOf(part), MaxOrderOf(ring))
  {
    if m > 0 {
      RowBounds(part, ring, isHole, i, m - 1);
      EdgeFits(part, i);
      EdgeFits(ring, m - 1);
    }
  }

  lemma {:induction false} RowsBounds(part: seq<Point>, ring: seq<Point>, isHole: bool, n: nat)
    requires 0 < |part| && n <= |part| && |ring| > 0
    ensures WithinOrders(Rows(part, ring, isHole, n), MaxOrderOf(part), MaxOrderOf(ring))
  {
    if n > 0 {
      var a := Rows(part, ring, isHole, n - 1);
      var b := Row(part, ring, isHole, n - 1, |ring|);
      assert Rows(part, ring, isHole, n) == a + b;
      RowsBounds(part, ring, isHole, n - 1);
      RowBounds(part, ring, isHole, n - 1, |ring|);
      BoundsJoin(a, b, MaxOrderOf(part), MaxOrderOf(ring));
    }
  }

  /** One more edge of `part` appends its row. */
  lemma RowsStep(part: seq<Point>, ring: seq<Point>, isHole: bool, n: nat)
    requires n < |part| && |ring| > 0
    ensures Rows(part, ring, isHole, n + 1) == Rows(part, ring, isHole, n) + Row(part, ring, isHole, n, |ring|)
  {
  }

  lemma BoundsJoin(a: seq<Intersection>, b: seq<Intersection>, pMax: int, qMax: int)
    requires WithinOrders(a, pMax, qMax) && WithinOrders(b, pMax, qMax)
    ensures WithinOrders(a + b, pMax, qMax)
  {
  }

  function Candidates(part: seq<Point>, ring: seq<Point>, isHole: bool): seq<Intersection>
    requires |part| > 0 && |ring| > 0
  {
    Rows(part, ring, isHole, |part|)
  }

  /** The inner edge loop of `Add`: the current edge p of the part against
      every edge of `ring`. */
  method EdgeAgainstRing(p: Edge, ring: seq<Point>, isHole: bool, pMax: int, qMax: int)
    returns (row: seq<Intersection>)
    requires p.Valid() && p.it < |p.ring| && |ring| > 0
    requires pMax == MaxOrderOf(p.ring) && qMax == MaxOrderOf(ring)
    ensures row == Row(p.ring, ring, isHole, p.it, |ring|)
  {
    var part, i := p.ring, p.it;
    var pS, pV, pOrder := p.Start(), p.Vector(), p.Order();
    assert pS == StartAt(part, i) && pV == VectorAt(part, i) && pOrder == OrderAt(part, i);
    row := [];
    EdgeFits(part, i);
    var q := new Edge(ring);
    while q.HasEdge()
      invariant q.Valid() && q.ring == ring
      invariant row == Row(part, ring, isHole, i, q.it)
      decreases |ring| - q.it
    {
      EdgeFits(ring, q.it);
      row := row + Intersect(pS, pV, pOrder, q.Start(), q.Vector(), q.Order(), isHole, pMax, qMax);
      q.Next();
    }
  }

  /** The nested edge loops of `Add` that collect the candidate intersections
      of one part of P with the ring Q. */
  method FindIntersections(part: seq<Point>, ring: seq<Point>, isHole: bool, pMax: int, qMax: int)
    returns (found: seq<Intersection>)
    requires |part| > 0 && |ring| > 0
    requires pMax == MaxOrderOf(part) && qMax == MaxOrderOf(ring)
    ensures found == Candidates(part, ring, isHole)
    ensures WithinOrders(found, pMax, qMax)
  {
    found := EdgeLoop(part, ring, isHole, pMax, qMax);
    RowsBounds(part, ring, isHole, |part|);
  }

  /** The outer loop, over the edges of the part. */
  method EdgeLoop(part: seq<Point>, ring: seq<Point>, isHole: bool, pMax: int, qMax: int)
    returns (found: seq<Intersection>)
    requires |part| > 0 && |ring| > 0
    requires pMax == MaxOrderOf(part) && qMax == MaxOrderOf(ring)
    ensures found == Rows(part, ring, isHole, |part|)
  {
    found := [];
    var p := new Edge(part);
    while p.HasEdge()
      invariant p.Valid() && p.ring == part
      invariant found == Rows(part, ring, isHole, p.it)
      decreases |part| - p.it
    {
      var row := EdgeAgainstRing(p, ring, isHole, pMax, qMax);
      RowsStep(part, ring, isHole, p.it);
      found := found + row;
      p.Next();
    }
  }

  // ---------------------------------------------------------------------
  // Sort

  predicate SortedByOrder(s: seq<Intersection>)
  {
    forall i, j :: 0 <= i < j < |s| ==> s[i].order <= s[j].order
  }

  function InsertByOrder(x: Intersection, s: seq<Intersection>): (r: seq<Intersection>)
    ensures multiset(r) == multiset(s) + multiset([x])
  {
    if s == [] || x.order <= s[0].order then [x] + s
    else
      assert s == [s[0]] + s[1..];
      [s[0]] + InsertByOrder(x, s[1..])
  }

  /** Inserting into a sorted sequence keeps it sorted. */
  lemma {:induction false} InsertKeepsSorted(x: Intersection, s: seq<Intersection>)
    requires SortedByOrder(s)
    ensures SortedByOrder(InsertByOrder(x, s))
  {
    if s != [] && x.order > s[0].order {
      var t := InsertByOrder(x, s[1..]);
      InsertKeepsSorted(x, s[1..]);
      forall j | 0 <= j < |t| ensures s[0].order <= t[j].order {
        assert t[j] in multiset(t);
        if t[j] != x {
          assert t[j] in multiset(s[1..]);
          var k :| 0 <= k < |s[1..]| && s[1..][k] == t[j];
          assert s[k + 1] == t[j];
        }
      }
    }
  }

  /** `Sort`: ordered by `order`. The source's `std::sort` leaves the order of
      equal keys unspecified; this model keeps them in input order. */
  function SortByOrder(s: seq<Intersection>): (r: seq<Intersection>)
    ensures SortedByOrder(r)
    ensures multiset(r) == multiset(s)
  {
    if s == [] then []
    else
      assert s == [s[0]] + s[1..];
      InsertKeepsSorted(s[0], SortByOrder(s[1..]));
      InsertByOrder(s[0], SortByOrder(s[1..]))
  }

  // ---------------------------------------------------------------------
  // RemoveDoubles

  /** The end of the run of order `o` that continues at index i: the first
      index from i on whose order differs (or the length). */
  function RunEnd(s: seq<Intersection>, i: nat, o: int): (k: nat)
    requires i <= |s|
    ensures i <= k <= |s|
    ensures forall m :: i <= m < k ==> s[m].order == o
    ensures k < |s| ==> s[k].order != o
    decreases |s| - i
  {
    if i == |s| || s[i].order != o then i else RunEnd(s, i + 1, o)
  }

  /** How many of the intersections at indices i .. k-1 are entering. */
  function EnteringBetween(s: seq<Intersection>, i: nat, k: nat): (n: nat)
    requires i <= k <= |s|
    ensures n <= k - i
    decreases k - i
  {
    if i == k then 0 else EnteringBetween(s, i, k - 1) + (if s[k - 1].entering then 1 else 0)
  }

  /** The survivors from index i on: each run of equal order collapses to its
      first element when all of its entering flags agree, and disappears when
      they are mixed. */
  function RemoveDoublesFrom(s: seq<Intersection>, i: nat): (r: seq<Intersection>)
    requires i <= |s|
    ensures |r| <= |s| - i
    decreases |s| - i
  {
    if i == |s| then []
    else
      var k := RunEnd(s, i + 1, s[i].order);
      var e := EnteringBetween(s, i, k);
      (if e == 0 || e == k - i then [s[i]] else []) + RemoveDoublesFrom(s, k)
  }

  function RemoveDoublesOf(s: seq<Intersection>): (r: seq<Intersection>)
    ensures |r| <= |s|
  {
    RemoveDoublesFrom(s, 0)
  }

  predicate StrictlyIncreasing(s: seq<Intersection>)
  {
    forall i, j :: 0 <= i < j < |s| ==> s[i].order < s[j].order
  }

  /** Every survivor is one of the input's intersections from index i on. */
  lemma {:induction false} RemoveDoublesFromInput(s: seq<Intersection>, i: nat)
    requires i <= |s|
    ensures forall x :: x in RemoveDoublesFrom(s, i) ==> x in s[i..]
    decreases |s| - i
  {
    if i < |s| {
      var k := RunEnd(s, i + 1, s[i].order);
      RemoveDoublesFromInput(s, k);
      forall x | x in RemoveDoublesFrom(s, k) ensures x in s[i..] {
        var m :| 0 <= m < |s[k..]| && s[k..][m] == x;
        assert s[i..][k - i + m] == x;
      }
      assert s[i..][0] == s[i];
    }
  }

  /** On sorted input no two survivors share an order, and every survivor has
      at least the order of the element at index i. */
  lemma {:induction false} RemoveDoublesIncreasing(s: seq<Intersection>, i: nat)
    requires SortedByOrder(s) && i < |s|
    ensures StrictlyIncreasing(RemoveDoublesFrom(s, i))
    ensures forall x :: x in RemoveDoublesFrom(s, i) ==> s[i].order <= x.order
    decreases |s| - i
  {
    var k := RunEnd(s, i + 1, s[i].order);
    if k < |s| {
      RemoveDoublesIncreasing(s, k);
      assert s[i].order < s[k].order;
    }
  }

  /** The survivors of a sorted sequence are strictly increasing in order and
      all come from the input. */
  lemma RemoveDoublesSorted(s: seq<Intersection>)
    requires SortedByOrder(s)
    ensures StrictlyIncreasing(RemoveDoublesOf(s))
    ensures forall x :: x in RemoveDoublesOf(s) ==> x in s
  {
    RemoveDoublesFromInput(s, 0);
    assert s[0..] == s;
    if s != [] {
      RemoveDoublesIncreasing(s, 0);
    }
  }

  /** The inner loop of `RemoveDoubles`: starting at `start`, the end of the
      run of equal order and how many of its intersections are entering. The
      ghost `s` is the input before compaction, which agrees with `a` from
      `start` on. */
  method ScanRun(a: array<Intersection>, start: nat, ghost s: seq<Intersection>)
    returns (i: nat, entering: int, total: int)
    requires start < a.Length == |s|
    requires forall k :: start <= k < a.Length ==> a[k] == s[k]
    ensures i == RunEnd(s, start + 1, s[start].order) && total == i - start
    ensures entering == EnteringBetween(s, start, i)
  {
    var order := a[start].order;
    entering := if a[start].entering then 1 else 0;
    total := 1;
    i := start + 1;
    while i < a.Length && a[i].order == order
      invariant start < i <= a.Length && total == i - start
      invariant entering == EnteringBetween(s, start, i)
      invariant RunEnd(s, start + 1, order) == RunEnd(s, i, order)
    {
      entering := entering + (if a[i].entering then 1 else 0);
      total := total + 1;
      i := i + 1;
    }
  }

  lemma ConcatAssoc(a: seq<Intersection>, b: seq<Intersection>, c: seq<Intersection>)
    ensures (a + b) + c == a + (b + c)
  {
  }

  /** `RemoveDoubles`: compacts the sorted intersections in place, keeping
      index j behind the scan index i; the source then resizes the vector to
      j, which here is the returned length. */
  method RemoveDoubles(a: array<Intersection>) returns (len: nat)
    modifies a
    ensures len <= a.Length
    ensures a[..len] == RemoveDoublesOf(old(a[..]))
  {
    ghost var s := a[..];
    ghost var kept: seq<Intersection> := [];
    var j := 0;
    var i := 0;
    while i < a.Length
      invariant j <= i <= a.Length && |s| == a.Length && |kept| == j
      invariant forall k :: i <= k < a.Length ==> a[k] == s[k]
      invariant forall k :: 0 <= k < j ==> a[k] == kept[k]
      invariant kept + RemoveDoublesFrom(s, i) == RemoveDoublesOf(s)
      decreases a.Length - i
    {
      ghost var start := i;
      a[j] := a[i];
      var entering, total;
      i, entering, total := ScanRun(a, i, s);
      ghost var keep := if entering == 0 || entering == total then [s[start]] else [];
      ConcatAssoc(kept, keep, RemoveDoublesFrom(s, i));
      if entering == 0 || entering == total {
        j := j + 1;
      }
      kept := kept + keep;
    }
    assert a[..j] == kept;
    len := j;
  }
}
