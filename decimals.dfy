// Decimal digits: reading a run of them as a number, and writing a number
// as them, as `atoi`, `stoi` and `ostream <<` do.
module Decimals {

  predicate IsDigit(c: char) {
    '0' <= c <= '9'
  }

  predicate AllDigits(d: string) {
    forall j :: 0 <= j < |d| ==> IsDigit(d[j])
  }

  /** The value of a string of decimal digits. */
  function Decimal(d: string): (v: nat)
    requires AllDigits(d)
  {
    if d == [] then 0 else Decimal(d[..|d| - 1]) * 10 + (d[|d| - 1] as int - '0' as int)
  }

  /** The decimal digits of `n`, most significant first. */
  function Digits(n: nat): string {
    var last := [('0' as int + n % 10) as char];
    if n < 10 then last else Digits(n / 10) + last
  }

  /** The digits of `n` are a non-empty run of decimal digits whose value
      is `n`. */
  lemma {:induction false} DigitsValue(n: nat)
    ensures AllDigits(Digits(n)) && Digits(n) != [] && Decimal(Digits(n)) == n
  {
    var last := [('0' as int + n % 10) as char];
    if n < 10 {
      assert Decimal(last) == Decimal(last[..0]) * 10 + n % 10;
    } else {
      DigitsValue(n / 10);
      var d := Digits(n);
      assert d == Digits(n / 10) + last;
      assert d[..|d| - 1] == Digits(n / 10);
    }
  }

  /** `ostream << v`: the decimal digits, after '-' for a negative value. */
  function IntText(v: int): string {
    if v < 0 then "-" + Digits(-v) else Digits(v)
  }
}
