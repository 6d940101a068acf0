// Integer helpers shared by the geometry modules: C++'s truncating division
// and remainder, and the 32-bit range the source's `int` lives in.
module Ints {

  const INT_MIN: int := -0x8000_0000
  const INT_MAX: int := 0x7fff_ffff

  /** True when `v` fits in a 32-bit signed `int`. */
  predicate IsInt32(v: int) {
    INT_MIN <= v <= INT_MAX
  }

  function Abs(v: int): (r: nat)
    ensures r == v || r == -v
  {
    if v < 0 then -v else v
  }

  /** C++ `a / b` on integers: the quotient truncated toward zero. */
  function Quot(a: int, b: int): (q: int)
    requires b != 0
    // The remainder left by the quotient is smaller than the divisor and
    // carries the sign of the dividend: this is what "truncate toward zero" means.
    ensures Abs(a - q * b) < Abs(b)
    ensures a - q * b == 0 || (a - q * b < 0 <==> a < 0)
  {
    if a >= 0 then
      if b > 0 then a / b else -(a / -b)
    else
      if b > 0 then -((-a) / b) else (-a) / (-b)
  }

  /** C++ `a % b` on integers: the remainder of the truncating quotient. */
  function Rem(a: int, b: int): (r: int)
    requires b != 0
    ensures a == Quot(a, b) * b + r
    ensures Abs(r) < Abs(b)
    ensures r == 0 || (r < 0 <==> a < 0)
  {
    a - Quot(a, b) * b
  }

  /** Scaling and then dividing by the same nonzero factor is the identity. */
  lemma QuotOfMultiple(a: int, k: int)
    requires k != 0
    ensures Quot(a * k, k) == a
  {
    var q := Quot(a * k, k);
    assert a * k - q * k == (a - q) * k;
    NoSmallMultiple(a - q, k);
  }

  /** A nonzero multiple of `k` is at least as large as `k`. */
  lemma NoSmallMultiple(d: int, k: int)
    requires k != 0 && Abs(d * k) < Abs(k)
    ensures d == 0
  {
    if d != 0 {
      AbsProduct(d, k);
      MulMono(1, Abs(d), Abs(k), Abs(k));
    }
  }

  lemma AbsProduct(a: int, b: int)
    ensures Abs(a * b) == Abs(a) * Abs(b)
  {
    if a < 0 && b < 0 {
      assert a * b == (-a) * (-b);
    } else if a < 0 {
      assert a * b == -((-a) * b);
    } else if b < 0 {
      assert a * b == -(a * (-b));
    }
  }

  /** The quotient of an exact multiple never depends on rounding. */
  lemma QuotExact(a: int, b: int, q: int)
    requires b != 0 && a == q * b
    ensures Quot(a, b) == q
  {
    QuotOfMultiple(q, b);
  }

  /** |x * y| stays below the product of the bounds of |x| and |y|. */
  lemma ProductBound(x: int, y: int, bx: nat, bY: nat)
    requires Abs(x) <= bx && Abs(y) <= bY
    ensures Abs(x * y) <= bx * bY
  {
    AbsProduct(x, y);
    MulMono(Abs(x), bx, Abs(y), bY);
  }

  lemma MulMono(a: nat, b: nat, c: nat, d: nat)
    requires a <= b && c <= d
    ensures a * c <= b * d
  {
    assert a * c <= b * c;
    assert b * c <= b * d;
  }

  /** A truncated quotient never exceeds the exact one in magnitude. */
  lemma QuotBound(a: int, b: int, m: nat)
    requires b > 0 && Abs(a) <= b * m
    ensures Abs(Quot(a, b)) <= m
  {
    var q := Quot(a, b);
    var r := a - q * b;
    if Abs(q) > m {
      MulMono(m + 1, Abs(q), b, b);
      AbsProduct(q, b);
      assert false;
    }
  }

  /** Squares grow with magnitude. */
  lemma SquareMono(a: int, b: int)
    requires Abs(a) <= Abs(b)
    ensures 0 <= a * a <= b * b
  {
    MulMono(Abs(a), Abs(b), Abs(a), Abs(b));
    AbsProduct(a, a);
    AbsProduct(b, b);
  }
}
