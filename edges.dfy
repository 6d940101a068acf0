// An iterator over the closed loop of edges of a ring: first the implicit
// edge from the last vertex back to the first, then each edge between
// consecutive vertices, while accumulating the "order" (the sum of squared
// lengths of the edges already passed).
module Edges {
  import opened Points

  /** Start of the k-th edge: the last vertex for k = 0, else vertex k - 1. */
  function StartAt(ring: seq<Point>, k: nat): Point
    requires k < |ring|
  {
    if k == 0 then ring[|ring| - 1] else ring[k - 1]
  }

  /** End of the k-th edge: vertex k. */
  function EndAt(ring: seq<Point>, k: nat): Point
    requires k < |ring|
  {
    ring[k]
  }

  function VectorAt(ring: seq<Point>, k: nat): Point
    requires k < |ring|
  {
    EndAt(ring, k).Minus(StartAt(ring, k))
  }

  /** The order of edge k: the sum of the squared lengths of edges 0 .. k-1. */
  function OrderAt(ring: seq<Point>, k: nat): int
    requires k <= |ring|
  {
    if k == 0 then 0 else OrderAt(ring, k - 1) + VectorAt(ring, k - 1).LengthSquared()
  }

  /** Reference definition of the perimeter's squared-length sum, walking the
      open path front to back and then adding the closing edge. */
  function PathSquares(s: seq<Point>): int
  {
    if |s| < 2 then 0 else s[1].Minus(s[0]).LengthSquared() + PathSquares(s[1..])
  }

  function LoopSquares(ring: seq<Point>): int
    requires |ring| > 0
  {
    ring[0].Minus(ring[|ring| - 1]).LengthSquared() + PathSquares(ring)
  }

  /** Each edge starts where the previous one ended, and the loop closes. */
  lemma EdgesChain(ring: seq<Point>, k: nat)
    requires k + 1 < |ring|
    ensures StartAt(ring, k + 1) == EndAt(ring, k)
    ensures StartAt(ring, 0) == EndAt(ring, |ring| - 1)
  {
  }

  /** The order never decreases along the ring. */
  lemma {:induction false} OrderMonotone(ring: seq<Point>, i: nat, j: nat)
    requires i <= j <= |ring|
    ensures 0 <= OrderAt(ring, i) <= OrderAt(ring, j)
  {
    if i < j {
      OrderMonotone(ring, i, j - 1);
    } else if i > 0 {
      OrderMonotone(ring, 0, i);
    }
  }

  /** Squared lengths along the open path from vertex 0 to vertex k. */
  lemma {:induction false} OrderIsPathSum(ring: seq<Point>, k: nat)
    requires 0 < k <= |ring|
    ensures OrderAt(ring, k) == ring[0].Minus(ring[|ring| - 1]).LengthSquared() + PathSquares(ring[..k])
  {
    if k == 1 {
      assert OrderAt(ring, 0) == 0;
    } else {
      OrderIsPathSum(ring, k - 1);
      PathSquaresSnoc(ring[..k - 1], ring[k - 1]);
      assert ring[..k - 1] + [ring[k - 1]] == ring[..k];
    }
  }

  lemma {:induction false} PathSquaresSnoc(s: seq<Point>, p: Point)
    requires |s| > 0
    ensures PathSquares(s + [p]) == PathSquares(s) + p.Minus(s[|s| - 1]).LengthSquared()
  {
    if |s| == 1 {
      assert (s + [p])[1..] == [p];
    } else {
      assert (s + [p])[1..] == s[1..] + [p];
      PathSquaresSnoc(s[1..], p);
    }
  }

  /** After the last edge the order is the full perimeter's squared-length sum. */
  lemma TotalOrder(ring: seq<Point>)
    requires |ring| > 0
    ensures OrderAt(ring, |ring|) == LoopSquares(ring)
  {
    OrderIsPathSum(ring, |ring|);
    assert ring[..|ring|] == ring;
  }

  class Edge {
    const ring: seq<Point>
    var start: Point
    var v: Point
    /** Index of the current edge's end vertex; `|ring|` is the end. */
    var it: nat
    var order: int

    ghost predicate Valid()
      reads this
    {
      && 0 < |ring|
      && it <= |ring|
      && start == (if it == 0 then ring[|ring| - 1] else ring[it - 1])
      && v == VectorAt(ring, if it < |ring| then it else |ring| - 1)
      && order == OrderAt(ring, it)
    }

    /** The first edge runs from the last vertex to the first, with order 0. */
    constructor (ring: seq<Point>)
      requires |ring| > 0
      ensures Valid() && this.ring == ring && it == 0
      ensures Start() == ring[|ring| - 1] && End() == ring[0] && Order() == 0
    {
      this.ring := ring;
      start := ring[|ring| - 1];
      v := ring[0].Minus(ring[|ring| - 1]);
      it := 0;
      order := 0;
    }

    /** `operator++`: count the current edge's squared length and move on. */
    method Next()
      requires Valid() && it < |ring|
      modifies this
      ensures Valid() && it == old(it) + 1
      ensures order == old(order) + old(v).LengthSquared()
      ensures start == old(End())
    {
      var k := it;
      assert v == VectorAt(ring, k);
      assert OrderAt(ring, k + 1) == order + v.LengthSquared();
      order := order + v.Dot(v);
      start := ring[k];
      it := k + 1;
      if it != |ring| {
        v := ring[it].Minus(start);
        assert v == VectorAt(ring, it);
      }
    }

    /** `operator bool`: there is a current edge (fewer than |ring| steps taken). */
    function HasEdge(): (b: bool)
      reads this
      requires Valid()
      ensures b <==> it < |ring|
    {
      it != |ring|
    }

    /** `operator!`: the negation of `operator bool`. */
    function AtEnd(): (b: bool)
      reads this
      requires Valid()
      ensures b <==> !HasEdge()
    {
      it == |ring|
    }

    function Start(): (p: Point)
      reads this
      requires Valid()
      ensures it < |ring| ==> p == StartAt(ring, it)
    {
      start
    }

    function End(): (p: Point)
      reads this
      requires Valid() && it < |ring|
      ensures p == EndAt(ring, it)
    {
      ring[it]
    }

    /** `Vector()` is `End() - Start()` while the iterator is valid. */
    function Vector(): (p: Point)
      reads this
      requires Valid()
      ensures it < |ring| ==> p == End().Minus(Start())
    {
      v
    }

    function Order(): (r: int)
      reads this
      requires Valid()
      ensures r == OrderAt(ring, it) && r >= 0
    {
      OrderMonotone(ring, it, it);
      order
    }
  }
}
