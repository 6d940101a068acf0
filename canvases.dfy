// A drawing surface: Cohen-Sutherland clipping of each line to the surface,
// and the pen that `MoveTo` and `LineTo` move. The pixels are not modelled;
// a canvas records the lines it was asked to draw.
module Canvases {
  import opened Ints
  import opened Points
  import opened Rects
  import opened Rings

  // ---------------------------------------------------------------------
  // Outcodes

  /** The outcode bits, in the order left, right, up, down. */
  const LEFT: bv4 := 1
  const RIGHT: bv4 := 2
  const UP: bv4 := 4
  const DOWN: bv4 := 8

  /** `Code`: one bit for each side of the closed box [0, width] by
      [0, height] that the point lies beyond. */
  function Code(p: Point, width: int, height: int): (c: bv4)
    ensures c == 0 <==> 0 <= p.x <= width && 0 <= p.y <= height
    ensures (c & LEFT != 0 <==> p.x < 0) && (c & RIGHT != 0 <==> p.x > width)
    ensures (c & UP != 0 <==> p.y < 0) && (c & DOWN != 0 <==> p.y > height)
  {
    (if p.x < 0 then LEFT else 0) | (if p.x > width then RIGHT else 0) |
    (if p.y < 0 then UP else 0) | (if p.y > height then DOWN else 0)
  }

  /** A point is never beyond two opposite sides of a non-empty box. */
  lemma CodeOpposite(p: Point, width: int, height: int)
    requires width >= 0 && height >= 0
    ensures Code(p, width, height) & (LEFT | RIGHT) != (LEFT | RIGHT)
    ensures Code(p, width, height) & (UP | DOWN) != (UP | DOWN)
  {
  }

  /** How many sides a code names. */
  function Count(c: bv4): nat {
    (if c & 1 != 0 then 1 else 0) + (if c & 2 != 0 then 1 else 0) +
    (if c & 4 != 0 then 1 else 0) + (if c & 8 != 0 then 1 else 0)
  }

  // ---------------------------------------------------------------------
  // Shifting a point onto an edge

  /** `s + (e - s) * t / d` on one axis, with C++'s truncating division. */
  function Interpolate(s: int, e: int, t: int, d: int): int
    requires d != 0
  {
    s + Quot((e - s) * t, d)
  }

  /** A positive factor keeps the sign. */
  lemma ProductSign(a: int, u: int)
    requires u > 0
    ensures a >= 0 ==> a * u >= 0
    ensures a < 0 ==> a * u < 0
  {
  }

  /** Truncating division by a positive divisor keeps the sign. */
  lemma QuotSign(x: int, n: int)
    requires n > 0
    ensures x >= 0 ==> Quot(x, n) >= 0
    ensures x < 0 ==> Quot(x, n) <= 0
  {
    if x >= 0 {
      assert Quot(x, n) == x / n;
    } else {
      assert Quot(x, n) == -((-x) / n);
    }
  }

  /** Truncating division by a negative divisor is division of the
      negated dividend by the negated divisor. */
  lemma QuotNegate(x: int, d: int)
    requires d < 0
    ensures Quot(x, d) == Quot(-x, -d)
  {
    if x >= 0 {
      assert Quot(x, d) == -(x / -d) == Quot(-x, -d);
    } else {
      assert Quot(x, d) == (-x) / (-d) == Quot(-x, -d);
    }
  }

  /** A fraction u / n in (0, 1] of `a`, truncated, lies between 0 and `a`. */
  lemma QuotFraction(a: int, u: int, n: int)
    requires 0 < u <= n
    ensures Within(0, a, Quot(a * u, n))
  {
    var x := a * u;
    assert Abs(x) <= n * Abs(a) by {
      AbsProduct(a, u);
      MulMono(Abs(a), Abs(a), u, n);
    }
    QuotBound(x, n, Abs(a));
    ProductSign(a, u);
    QuotSign(x, n);
  }

  /** When `t / d` lies in (0, 1], the interpolated value lies between the
      two ends, truncation included. */
  lemma InterpolateBetween(s: int, e: int, t: int, d: int)
    requires (0 < t <= d) || (d <= t < 0)
    ensures Within(s, e, Interpolate(s, e, t, d))
  {
    var a := e - s;
    if d > 0 {
      QuotFraction(a, t, d);
    } else {
      QuotNegate(a * t, d);
      assert -(a * t) == a * -t;
      QuotFraction(a, -t, -d);
    }
  }

  /** The divisor `Shift` needs: an x bit needs the two ends apart in x,
      a y bit apart in y. */
  predicate CanShift(s: Point, e: Point, code: bv4) {
    if code & 3 != 0 then e.x != s.x else e.y != s.y
  }

  /** `Shift`: moves `s` along the line towards `e` onto the edge its code
      names: x = 0 or width when an x bit is set, else y = 0 or height. */
  function Shift(s: Point, e: Point, code: bv4, width: int, height: int): (r: Point)
    requires CanShift(s, e, code)
    ensures code & 3 != 0 ==> r.x == (if code & LEFT != 0 then 0 else width)
    ensures code & 3 == 0 ==> r.y == (if code & UP != 0 then 0 else height)
  {
    if code & 3 != 0 then
      var x := if code & 1 != 0 then 0 else width;
      Point(x, Interpolate(s.y, e.y, x - s.x, e.x - s.x))
    else
      var y := if code & 4 != 0 then 0 else height;
      Point(Interpolate(s.x, e.x, y - s.y, e.y - s.y), y)
  }

  /** `v` lies between `a` and `b`. */
  predicate Within(a: int, b: int, v: int) {
    (a <= v <= b) || (b <= v <= a)
  }

  /** `p` lies in the bounding box of the segment from `a` to `b`. */
  predicate InBox(a: Point, b: Point, p: Point) {
    Within(a.x, b.x, p.x) && Within(a.y, b.y, p.y)
  }

  /** What is left to do: nothing once the codes share a bit (the next
      test rejects), else one step per side named. */
  function Work(s: Point, e: Point, width: int, height: int): nat {
    var sc, ec := Code(s, width, height), Code(e, width, height);
    if sc & ec != 0 then 0 else Count(sc) + Count(ec) + 1
  }

  /** One step of the clip loop. When `s` is outside and shares no side
      with `e`, the divisor is nonzero, the shifted point stays between
      `s` and `e`, and the work left drops. */
  lemma ShiftStep(s: Point, e: Point, width: int, height: int)
    requires width >= 0 && height >= 0
    requires Code(s, width, height) != 0 && Code(s, width, height) & Code(e, width, height) == 0
    ensures CanShift(s, e, Code(s, width, height))
    ensures InBox(s, e, Shift(s, e, Code(s, width, height), width, height))
    ensures Work(Shift(s, e, Code(s, width, height), width, height), e, width, height) < Work(s, e, width, height)
  {
    var sc, ec := Code(s, width, height), Code(e, width, height);
    var r := Shift(s, e, sc, width, height);
    if sc & 3 != 0 {
      InterpolateBetween(s.y, e.y, r.x - s.x, e.x - s.x);
    } else {
      InterpolateBetween(s.x, e.x, r.y - s.y, e.y - s.y);
    }
    var rc := Code(r, width, height);
    if rc & ec == 0 {
      assert rc & (sc ^ 0xF) == 0 && rc != sc;
      assert Count(rc) < Count(sc) by {
        assert rc & sc == rc;
      }
    }
  }

  // ---------------------------------------------------------------------
  // Clipping a line

  /** `Clip`: shifts the outside end onto the box, `s` first, until both
      ends are inside (visible) or both lie beyond one side (hidden). */
  function ClipOf(s: Point, e: Point, width: int, height: int): (r: (bool, Point, Point))
    requires width >= 0 && height >= 0
    // A visible line ends inside the box.
    ensures r.0 ==> Code(r.1, width, height) == 0 && Code(r.2, width, height) == 0
    // An end that starts inside is never moved.
    ensures Code(s, width, height) == 0 ==> r.1 == s
    ensures Code(e, width, height) == 0 ==> r.2 == e
    // The ends only move along the line, within its bounding box.
    ensures InBox(s, e, r.1) && InBox(s, e, r.2)
    // Two ends beyond one side hide the line at once.
    ensures Code(s, width, height) & Code(e, width, height) != 0 ==> r == (false, s, e)
    decreases Work(s, e, width, height)
  {
    var sc, ec := Code(s, width, height), Code(e, width, height);
    if sc | ec == 0 then (true, s, e)
    else if sc & ec != 0 then (false, s, e)
    else if sc != 0 then
      ShiftStep(s, e, width, height);
      ClipOf(Shift(s, e, sc, width, height), e, width, height)
    else
      ShiftStep(e, s, width, height);
      assert Work(e, s, width, height) == Work(s, e, width, height);
      var s2 := Shift(e, s, ec, width, height);
      assert Work(s, s2, width, height) == Work(s2, s, width, height);
      ClipOf(s, s2, width, height)
  }

  /** A line with both ends inside is drawn exactly as given. */
  lemma ClipInside(s: Point, e: Point, width: int, height: int)
    requires width >= 0 && height >= 0
    requires Code(s, width, height) == 0 && Code(e, width, height) == 0
    ensures ClipOf(s, e, width, height) == (true, s, e)
  {
  }

  /** The clip loop of `Clip`. */
  method Clip(s0: Point, e0: Point, width: int, height: int) returns (visible: bool, s: Point, e: Point)
    requires width >= 0 && height >= 0
    ensures (visible, s, e) == ClipOf(s0, e0, width, height)
  {
    s, e := s0, e0;
    while true
      invariant ClipOf(s, e, width, height) == ClipOf(s0, e0, width, height)
      decreases Work(s, e, width, height)
    {
      var sc := Code(s, width, height);
      var ec := Code(e, width, height);
      if sc | ec == 0 {
        return true, s, e;
      }
      if sc & ec != 0 {
        return false, s, e;
      }
      if sc != 0 {
        ShiftStep(s, e, width, height);
        s := Shift(s, e, sc, width, height);
      } else if ec != 0 {
        ShiftStep(e, s, width, height);
        assert Work(e, s, width, height) == Work(s, e, width, height);
        var e2 := Shift(e, s, ec, width, height);
        assert Work(s, e2, width, height) == Work(e2, s, width, height);
        e := e2;
      }
    }
  }

  // ---------------------------------------------------------------------
  // The lines a drawing asks for

  /** The lines drawn from `start` through each point in turn. */
  function Strokes(start: Point, points: seq<Point>): (r: seq<(Point, Point)>)
    ensures |r| == |points|
    decreases |points|
  {
    if points == [] then [] else [(start, points[0])] + Strokes(points[0], points[1..])
  }

  /** `Draw(ring)`: from the last vertex to each vertex in order. */
  function RingStrokes(ring: Ring): seq<(Point, Point)>
    requires |ring| > 0
  {
    Strokes(ring[|ring| - 1], ring)
  }

  /** The strokes of a ring close up: each starts where the one before it
      ended, and the first starts where the last ends. */
  lemma RingStrokesClosed(ring: Ring)
    requires |ring| > 0
    ensures |RingStrokes(ring)| == |ring|
    ensures forall k :: 0 < k < |ring| ==> RingStrokes(ring)[k].0 == RingStrokes(ring)[k - 1].1
    ensures RingStrokes(ring)[0].0 == RingStrokes(ring)[|ring| - 1].1
  {
    StrokesInOrder(ring[|ring| - 1], ring);
  }

  /** Each stroke ends at its point and starts at the point before it,
      the first at `start`. */
  lemma {:induction false} StrokesInOrder(start: Point, points: seq<Point>)
    ensures forall k :: 0 <= k < |points| ==> Strokes(start, points)[k].1 == points[k]
    ensures forall k :: 0 < k < |points| ==> Strokes(start, points)[k].0 == points[k - 1]
    ensures |points| > 0 ==> Strokes(start, points)[0].0 == start
    decreases |points|
  {
    if points != [] {
      StrokesInOrder(points[0], points[1..]);
      var r := Strokes(start, points);
      assert r[1..] == Strokes(points[0], points[1..]);
    }
  }

  /** `Draw(rect)` visits these corners, ending where it began. */
  function Corners(rect: Rect): (r: Ring)
    ensures |r| == 4 && r[3] == Point(rect.x, rect.y)
  {
    [Point(rect.x + rect.w, rect.y), Point(rect.x + rect.w, rect.y + rect.h),
     Point(rect.x, rect.y + rect.h), Point(rect.x, rect.y)]
  }

  function PolygonStrokes(poly: seq<Ring>): seq<(Point, Point)>
    requires forall k :: 0 <= k < |poly| ==> |poly[k]| > 0
  {
    if poly == [] then [] else RingStrokes(poly[0]) + PolygonStrokes(poly[1..])
  }

  /** A rectangle's outline has one stroke per side, each starting where
      the one before it ends after moving along one axis by its size. */
  lemma RectStrokes(rect: Rect)
    ensures RingStrokes(Corners(rect)) == [
      (Point(rect.x, rect.y), Point(rect.x + rect.w, rect.y)),
      (Point(rect.x + rect.w, rect.y), Point(rect.x + rect.w, rect.y + rect.h)),
      (Point(rect.x + rect.w, rect.y + rect.h), Point(rect.x, rect.y + rect.h)),
      (Point(rect.x, rect.y + rect.h), Point(rect.x, rect.y))]
  {
    var c := Corners(rect);
    StrokesInOrder(c[3], c);
  }

  // ---------------------------------------------------------------------
  // The canvas

  class Canvas {
    /** The surface size in pixels. */
    const width: int
    const height: int
    /** Where the pen is. */
    var source: Point
    /** Every line asked for so far, before clipping. */
    ghost var strokes: seq<(Point, Point)>

    ghost predicate Valid()
      reads this
    {
      width >= 1 && height >= 1
    }

    constructor (width: int, height: int)
      requires width >= 1 && height >= 1
      ensures Valid() && this.width == width && this.height == height
      ensures source == Origin() && strokes == []
    {
      this.width := width;
      this.height := height;
      source := Origin();
      strokes := [];
    }

    /** `MoveTo`: puts the pen down at the point, drawing nothing. */
    method MoveTo(p: Point)
      modifies this
      ensures source == p && strokes == old(strokes)
    {
      source := p;
    }

    /** `LineTo`: the pen always ends at `p`; the part of the line that is
        drawn is the line clipped to the last pixel column and row. */
    method LineTo(p: Point) returns (visible: bool, s: Point, e: Point)
      requires Valid()
      modifies this
      ensures source == p && strokes == old(strokes) + [(old(source), p)]
      ensures (visible, s, e) == ClipOf(old(source), p, width - 1, height - 1)
    {
      var from := source;
      source := p;
      strokes := strokes + [(from, p)];
      visible, s, e := Clip(from, p, width - 1, height - 1);
    }

    /** `Draw(rect)`: the outline, starting and ending at the corner. */
    method DrawRect(rect: Rect)
      requires Valid()
      modifies this
      ensures strokes == old(strokes) + RingStrokes(Corners(rect))
      ensures source == Point(rect.x, rect.y)
    {
      MoveTo(Point(rect.x, rect.y));
      var _, _, _ := LineTo(Point(rect.x + rect.w, rect.y));
      var _, _, _ := LineTo(Point(rect.x + rect.w, rect.y + rect.h));
      var _, _, _ := LineTo(Point(rect.x, rect.y + rect.h));
      var _, _, _ := LineTo(Point(rect.x, rect.y));
      RectStrokes(rect);
    }

    /** `Draw(ring)`: from the last vertex through every vertex in order.
        An empty ring has no last vertex. */
    method DrawRing(ring: Ring)
      requires Valid() && |ring| > 0
      modifies this
      ensures strokes == old(strokes) + RingStrokes(ring)
      ensures source == ring[|ring| - 1]
    {
      MoveTo(ring[|ring| - 1]);
      for k := 0 to |ring|
        invariant strokes == old(strokes) + Strokes(ring[|ring| - 1], ring[..k])
        invariant source == if k == 0 then ring[|ring| - 1] else ring[k - 1]
      {
        var _, _, _ := LineTo(ring[k]);
        StrokesSnoc(ring[|ring| - 1], ring[..k], ring[k]);
        assert ring[..k + 1] == ring[..k] + [ring[k]];
      }
      assert ring[..|ring|] == ring;
    }

    /** `Draw(poly)`: every ring in turn. */
    method DrawPolygon(poly: seq<Ring>)
      requires Valid() && forall k :: 0 <= k < |poly| ==> |poly[k]| > 0
      modifies this
      ensures strokes == old(strokes) + PolygonStrokes(poly)
    {
      for k := 0 to |poly|
        invariant strokes == old(strokes) + PolygonStrokes(poly[..k])
      {
        DrawRing(poly[k]);
        PolygonStrokesSnoc(poly[..k], poly[k]);
        assert poly[..k + 1] == poly[..k] + [poly[k]];
      }
      assert poly[..|poly|] == poly;
    }
  }

  /** Drawing one more point adds one stroke from the last point. */
  lemma {:induction false} StrokesSnoc(start: Point, points: seq<Point>, p: Point)
    ensures Strokes(start, points + [p]) == Strokes(start, points) + [(if points == [] then start else points[|points| - 1], p)]
    decreases |points|
  {
    if points != [] {
      assert (points + [p])[1..] == points[1..] + [p];
      StrokesSnoc(points[0], points[1..], p);
    }
  }

  /** Drawing one more ring adds its strokes at the end. */
  lemma {:induction false} PolygonStrokesSnoc(poly: seq<Ring>, ring: Ring)
    requires forall k :: 0 <= k < |poly| ==> |poly[k]| > 0
    requires |ring| > 0
    ensures PolygonStrokes(poly + [ring]) == PolygonStrokes(poly) + RingStrokes(ring)
  {
    if poly != [] {
      assert (poly + [ring])[1..] == poly[1..] + [ring];
      PolygonStrokesSnoc(poly[1..], ring);
    } else {
      assert [ring][1..] == [];
    }
  }
}
