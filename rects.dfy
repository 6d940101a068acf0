// An axis-aligned rectangle: a corner (x, y) and a size (w, h), with
// half-open containment, overlap, shifting and growing.
module Rects {
  import opened Points

  datatype Rect = Rect(x: int, y: int, w: int, h: int) {

    /** `r + p`: the same rectangle moved by `p`. */
    function Plus(p: Point): (r: Rect)
      ensures r.TopLeft() == TopLeft().Plus(p) && r.Size() == Size()
    {
      Rect(x + p.x, y + p.y, w, h)
    }

    /** `r - p`: the same rectangle moved by `-p`. */
    function Minus(p: Point): (r: Rect)
      ensures r.TopLeft() == TopLeft().Minus(p) && r.Size() == Size()
    {
      Rect(x - p.x, y - p.y, w, h)
    }

    /** The point lies in the half-open box [x, x + w) by [y, y + h). */
    predicate Contains(p: Point) {
      var offX, offY := p.x - x, p.y - y;
      offX >= 0 && offX < w && offY >= 0 && offY < h
    }

    /** Some line of each axis is strictly inside both spans. */
    predicate Overlaps(r: Rect) {
      Max(x, r.x) < Min(x + w, r.x + r.w) && Max(y, r.y) < Min(y + h, r.y + r.h)
    }

    /** `Grow(d)`: `d` more on every side (less, for a negative `d`). */
    function Grown(d: int): (r: Rect)
      ensures r.TopLeft() == TopLeft().Minus(Point(d, d))
      ensures r.Size() == Size().Plus(Point(2 * d, 2 * d))
    {
      Rect(x - d, y - d, w + 2 * d, h + 2 * d)
    }

    function TopLeft(): Point {
      Point(x, y)
    }

    function Size(): Point {
      Point(w, h)
    }
  }

  function Max(a: int, b: int): int {
    if a < b then b else a
  }

  function Min(a: int, b: int): int {
    if a < b then a else b
  }

  /** `Rect(a, b)`: the rectangle with corner `a` reaching to `b`. */
  function FromCorners(a: Point, b: Point): (r: Rect)
    ensures r.TopLeft() == a && r.Size() == b.Minus(a)
    ensures r.TopLeft().Plus(r.Size()) == b
  {
    Rect(a.x, a.y, b.x - a.x, b.y - a.y)
  }

  /** The default rectangle, `Rect()`: the origin, with no width or height. */
  function Empty(): (r: Rect)
    ensures forall p :: !r.Contains(p)
  {
    Rect(0, 0, 0, 0)
  }

  /** A rectangle with no width or no height contains nothing. */
  lemma DegenerateContainsNothing(r: Rect, p: Point)
    requires r.w <= 0 || r.h <= 0
    ensures !r.Contains(p)
  {
  }

  /** Shifting a rectangle and a point together keeps containment. */
  lemma ShiftContains(r: Rect, p: Point, q: Point)
    ensures r.Plus(p).Contains(q.Plus(p)) <==> r.Contains(q)
    ensures r.Minus(p).Contains(q.Minus(p)) <==> r.Contains(q)
  {
  }

  /** `(r + p) - p == r` and `(r - p) + p == r`. */
  lemma ShiftRoundTrip(r: Rect, p: Point)
    ensures r.Plus(p).Minus(p) == r
    ensures r.Minus(p).Plus(p) == r
  {
  }

  /** `Grow(d)` then `Grow(-d)` restores the rectangle. */
  lemma GrowRoundTrip(r: Rect, d: int)
    ensures r.Grown(d).Grown(-d) == r
  {
  }

  /** Growing by a nonnegative amount keeps every contained point. */
  lemma GrowKeeps(r: Rect, d: int, p: Point)
    requires d >= 0 && r.Contains(p)
    ensures r.Grown(d).Contains(p)
  {
  }

  /** Overlap does not depend on the order of the two rectangles. */
  lemma OverlapsSymmetric(a: Rect, b: Rect)
    ensures a.Overlaps(b) <==> b.Overlaps(a)
  {
  }

  /** Two rectangles overlap exactly when some point lies in both; so
      rectangles that only share an edge do not overlap. */
  lemma OverlapsIffCommonPoint(a: Rect, b: Rect)
    ensures a.Overlaps(b) <==> exists p :: a.Contains(p) && b.Contains(p)
  {
    if a.Overlaps(b) {
      var p := Point(Max(a.x, b.x), Max(a.y, b.y));
      assert a.Contains(p) && b.Contains(p);
    }
  }

  /** Rectangles side by side, sharing the edge x = a.x + a.w, do not overlap. */
  lemma SharedEdgeNoOverlap(a: Rect, b: Rect)
    requires b.x == a.x + a.w
    ensures !a.Overlaps(b)
  {
  }

  /** A rectangle variable, for `+=`, `-=` and `Grow`, which overwrite the
      fields in place. */
  class RectVar {
    var x: int
    var y: int
    var w: int
    var h: int

    function Value(): Rect
      reads this
    {
      Rect(x, y, w, h)
    }

    constructor (r: Rect)
      ensures Value() == r
    {
      x, y, w, h := r.x, r.y, r.w, r.h;
    }

    /** `+=` */
    method AddAssign(p: Point)
      modifies this
      ensures Value() == old(Value()).Plus(p)
    {
      x := x + p.x;
      y := y + p.y;
    }

    /** `-=` */
    method SubAssign(p: Point)
      modifies this
      ensures Value() == old(Value()).Minus(p)
    {
      x := x - p.x;
      y := y - p.y;
    }

    /** `Grow(distance)` */
    method Grow(distance: int)
      modifies this
      ensures Value() == old(Value()).Grown(distance)
    {
      x := x - distance;
      y := y - distance;
      w := w + 2 * distance;
      h := h + 2 * distance;
    }
  }
}
