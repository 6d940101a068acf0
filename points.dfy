// A 2-D integer vector: the value type every geometry module is built on.
module Points {
  import opened Ints

  datatype Point = Point(x: int, y: int) {

    /** `operator bool`: the point is something other than (0, 0). */
    function NonZero(): (b: bool)
      ensures b <==> this != Origin()
    {
      x != 0 || y != 0
    }

    /** `operator!`: exactly the negation of `operator bool`. */
    function IsZero(): (b: bool)
      ensures b <==> !NonZero()
    {
      !(x != 0 || y != 0)
    }

    /** `==` compares both coordinates; it is equality of the values. */
    function Equals(p: Point): (b: bool)
      ensures b <==> this == p
    {
      x == p.x && y == p.y
    }

    /** `!=` is the negation of `==`. */
    function NotEquals(p: Point): (b: bool)
      ensures b <==> !Equals(p)
    {
      x != p.x || y != p.y
    }

    function Plus(p: Point): Point {
      Point(x + p.x, y + p.y)
    }

    function Minus(p: Point): Point {
      Point(x - p.x, y - p.y)
    }

    function Neg(): Point {
      Point(-x, -y)
    }

    /** `p * s` and `s * p` alike. */
    function Times(s: int): Point {
      Point(x * s, y * s)
    }

    /** `p / s`: each coordinate divided with C++'s truncation toward zero. */
    function Div(s: int): (r: Point)
      requires s != 0
      ensures Abs(x - r.x * s) < Abs(s) && Abs(y - r.y * s) < Abs(s)
      ensures x - r.x * s == 0 || (x - r.x * s < 0 <==> x < 0)
      ensures y - r.y * s == 0 || (y - r.y * s < 0 <==> y < 0)
    {
      Point(Quot(x, s), Quot(y, s))
    }

    function Dot(p: Point): int {
      x * p.x + y * p.y
    }

    function Cross(p: Point): int {
      x * p.y - y * p.x
    }

    /** The squared length is never negative, and zero only for (0, 0). */
    function LengthSquared(): (r: int)
      ensures r >= 0
      ensures r == 0 <==> IsZero()
    {
      SquareNonNegative(x);
      SquareNonNegative(y);
      Dot(this)
    }

    function DistanceSquared(p: Point): (r: int)
      ensures r >= 0
      ensures r == 0 <==> p == this
    {
      var d := p.Minus(this);
      assert d.IsZero() <==> p == this by {
        assert d.IsZero() <==> d.x == 0 && d.y == 0;
      }
      d.LengthSquared()
    }
  }

  function Origin(): Point {
    Point(0, 0)
  }

  lemma SquareNonNegative(v: int)
    ensures v * v >= 0
    ensures v * v == 0 <==> v == 0
  {
    if v < 0 {
      assert v * v == (-v) * (-v);
    }
  }

  /** `+` and `-` work per component, so they undo each other. */
  lemma PlusMinus(p: Point, q: Point)
    ensures p.Plus(q).Minus(q) == p && p.Minus(q).Plus(q) == p
    ensures p.Minus(p) == Origin()
    ensures p.Neg().Neg() == p
    ensures p.Minus(q) == p.Plus(q.Neg())
  {
  }

  /** Scaling by a nonzero `k` and then dividing by `k` gives back the point. */
  lemma ScaleDivide(p: Point, k: int)
    requires k != 0
    ensures p.Times(k).Div(k) == p
  {
    QuotOfMultiple(p.x, k);
    QuotOfMultiple(p.y, k);
  }

  lemma CrossAntisymmetric(a: Point, b: Point)
    ensures a.Cross(b) == -b.Cross(a)
    ensures a.Cross(a) == 0
  {
  }

  lemma DotSymmetric(a: Point, b: Point)
    ensures a.Dot(b) == b.Dot(a)
  {
  }

  lemma DistanceSymmetric(a: Point, b: Point)
    ensures a.DistanceSquared(b) == b.DistanceSquared(a)
  {
    var d := b.Minus(a);
    assert a.Minus(b) == d.Neg();
    assert d.Neg().Dot(d.Neg()) == d.Dot(d);
  }

  /** Cross is linear in each argument. */
  lemma CrossLinear(a: Point, b: Point, c: Point)
    ensures a.Plus(b).Cross(c) == a.Cross(c) + b.Cross(c)
    ensures c.Cross(a.Plus(b)) == c.Cross(a) + c.Cross(b)
    ensures a.Minus(b).Cross(c) == a.Cross(c) - b.Cross(c)
    ensures c.Cross(a.Minus(b)) == c.Cross(a) - c.Cross(b)
  {
    calc {
      a.Plus(b).Cross(c);
      (a.x + b.x) * c.y - (a.y + b.y) * c.x;
      (a.x * c.y + b.x * c.y) - (a.y * c.x + b.y * c.x);
    }
    calc {
      c.Cross(a.Plus(b));
      c.x * (a.y + b.y) - c.y * (a.x + b.x);
      (c.x * a.y + c.x * b.y) - (c.y * a.x + c.y * b.x);
    }
    calc {
      a.Minus(b).Cross(c);
      (a.x - b.x) * c.y - (a.y - b.y) * c.x;
      (a.x * c.y - b.x * c.y) - (a.y * c.x - b.y * c.x);
    }
    calc {
      c.Cross(a.Minus(b));
      c.x * (a.y - b.y) - c.y * (a.x - b.x);
      (c.x * a.y - c.x * b.y) - (c.y * a.x - c.y * b.x);
    }
  }

  /** Cross of two translated points: the translation adds one linear term. */
  lemma ShiftCross(s: Point, e: Point, o: Point)
    ensures s.Plus(o).Cross(e.Plus(o)) == s.Cross(e) + s.Minus(e).Cross(o)
  {
    calc {
      s.Plus(o).Cross(e.Plus(o));
      (s.x + o.x) * (e.y + o.y) - (s.y + o.y) * (e.x + o.x);
      (s.x * e.y + s.x * o.y + o.x * e.y + o.x * o.y) - (s.y * e.x + s.y * o.x + o.y * e.x + o.y * o.x);
      (s.x * e.y - s.y * e.x) + ((s.x - e.x) * o.y - (s.y - e.y) * o.x);
    }
  }

  /** Coordinates below 2^15 in magnitude: the range where the source's 32-bit
      `Dot` and `Cross` cannot overflow. */
  predicate Small(p: Point) {
    Abs(p.x) < 0x8000 && Abs(p.y) < 0x8000
  }

  lemma NoOverflow(a: Point, b: Point)
    requires Small(a) && Small(b)
    ensures IsInt32(a.Dot(b)) && IsInt32(a.Cross(b))
  {
    ProductBound(a.x, b.x, 0x7fff, 0x7fff);
    ProductBound(a.y, b.y, 0x7fff, 0x7fff);
    ProductBound(a.x, b.y, 0x7fff, 0x7fff);
    ProductBound(a.y, b.x, 0x7fff, 0x7fff);
  }

  /** A point variable, for the compound assignments that overwrite x and y. */
  class PointVar {
    var x: int
    var y: int

    function Value(): Point
      reads this
    {
      Point(x, y)
    }

    constructor (p: Point)
      ensures Value() == p
    {
      x, y := p.x, p.y;
    }

    /** `+=` */
    method AddAssign(p: Point)
      modifies this
      ensures Value() == old(Value()).Plus(p)
    {
      x := x + p.x;
      y := y + p.y;
    }

    /** `-=` */
    method SubAssign(p: Point)
      modifies this
      ensures Value() == old(Value()).Minus(p)
    {
      x := x - p.x;
      y := y - p.y;
    }

    /** `*=` */
    method MulAssign(s: int)
      modifies this
      ensures Value() == old(Value()).Times(s)
    {
      x := x * s;
      y := y * s;
    }

    /** `/=`, truncating toward zero. */
    method DivAssign(s: int)
      requires s != 0
      modifies this
      ensures Value() == old(Value()).Div(s)
    {
      x := Quot(x, s);
      y := Quot(y, s);
    }
  }
}
