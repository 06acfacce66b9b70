/** C#'s 32-bit `int` and the two pieces of its arithmetic the model needs:
    unchecked wrap-around (the compiler's default context) and `%`, which
    truncates toward zero instead of flooring. */
module CSharpInt {

  const IntMin: int := -0x8000_0000
  const IntMax: int := 0x7FFF_FFFF
  const Modulus: int := 0x1_0000_0000

  /** The values of `System.Int32`. */
  type Int32 = x: int | -0x8000_0000 <= x <= 0x7FFF_FFFF

  /** Brings an exact result back into `int` the way unchecked arithmetic does:
      two's complement wrap-around modulo 2^32. */
  function Wrap32(x: int): (r: Int32)
    ensures (x - r) % Modulus == 0
    ensures IntMin <= x <= IntMax ==> r == x
  {
    (x - IntMin) % Modulus + IntMin
  }

  /** `x++` on an `int` in an unchecked context: `int.MaxValue` steps to
      `int.MinValue`. */
  function Inc32(x: Int32): (r: Int32)
    ensures r == Wrap32(x + 1)
  {
    if x == IntMax then IntMin else x + 1
  }

  /** Wrapping twice is wrapping once. */
  lemma WrapThenIncrement(k: int)
    ensures Wrap32(Wrap32(k) + 1) == Wrap32(k + 1)
  {
    var w := Wrap32(k);
    var r := Wrap32(w + 1);
    var r' := Wrap32(k + 1);
    assert (k - w) % Modulus == 0;
    assert (w + 1 - r) % Modulus == 0;
    assert (k + 1 - r') % Modulus == 0;
    SumOfMultiples(w + 1 - r, k + 1 - r', k - w);
    assert (r' - r) % Modulus == 0;
    assert -Modulus < r' - r < Modulus;
  }

  lemma SumOfMultiples(a: int, b: int, c: int)
    requires a % Modulus == 0 && b % Modulus == 0 && c % Modulus == 0
    ensures (a - b + c) % Modulus == 0
  {
    var qa, qb, qc := a / Modulus, b / Modulus, c / Modulus;
    assert a == Modulus * qa && b == Modulus * qb && c == Modulus * qc;
    assert a - b + c == Modulus * (qa - qb + qc);
    MultipleHasZeroRem(a - b + c, Modulus, qa - qb + qc);
  }

  function Abs(x: int): nat {
    if x < 0 then -x else x
  }

  /** C#'s `a % b` for a positive divisor: the remainder of the division
      truncated toward zero, so it carries the sign of the dividend. It is zero
      exactly when `b` divides `a`. */
  function Rem(a: int, b: int): (r: int)
    requires b > 0
    ensures Abs(r) < b
    ensures a >= 0 ==> r >= 0
    ensures a < 0 ==> r <= 0
    ensures r == 0 <==> a % b == 0
    ensures (a - r) % b == 0
  {
    if a >= 0 then
      MultipleHasZeroRem(a - a % b, b, a / b);
      a % b
    else
      NegationKeepsDivisibility(a, b);
      NegationKeepsDivisibility(-a, b);
      MultipleHasZeroRem(a + (-a) % b, b, -((-a) / b));
      -((-a) % b)
  }

  /** The contract of `Rem` pins down its value: any remainder of the right
      sign, smaller than the divisor and congruent to the dividend is `Rem`. */
  lemma RemIsUnique(a: int, b: int, r: int)
    requires b > 0 && Abs(r) < b
    requires a >= 0 ==> r >= 0
    requires a < 0 ==> r <= 0
    requires (a - r) % b == 0
    ensures r == Rem(a, b)
  {
    var s := Rem(a, b);
    DifferenceOfMultiples(a - s, a - r, b);
    assert (a - s) - (a - r) == r - s;
    SmallMultipleIsZero(r - s, b);
  }

  /** Truncation is symmetric: `(-a) % b` is `-(a % b)` in C#. */
  lemma RemOfNegation(a: int, b: int)
    requires b > 0
    ensures Rem(-a, b) == -Rem(a, b)
  {
  }

  lemma DifferenceOfMultiples(x: int, y: int, b: int)
    requires b > 0 && x % b == 0 && y % b == 0
    ensures (x - y) % b == 0
  {
    var qx, qy := x / b, y / b;
    assert x == b * qx && y == b * qy;
    assert x - y == b * (qx - qy);
    MultipleHasZeroRem(x - y, b, qx - qy);
  }

  lemma SmallMultipleIsZero(d: int, b: int)
    requires b > 0 && d % b == 0 && -b < d < b
    ensures d == 0
  {
    var q := d / b;
    assert d == b * q;
    MulMonotone(b, q);
    MulMonotone(b, -q);
    assert -d == b * (-q);
  }

  /** Divisibility does not depend on the sign of the dividend. */
  lemma NegationKeepsDivisibility(x: int, b: int)
    requires b > 0
    ensures x % b == 0 ==> (-x) % b == 0
  {
    if x % b == 0 {
      var q := x / b;
      assert x == b * q;
      assert -x == b * (-q);
      MultipleHasZeroRem(-x, b, -q);
    }
  }

  lemma MultipleHasZeroRem(a: int, b: int, q: int)
    requires b > 0
    requires a == b * q
    ensures a % b == 0
  {
    var r := a % b;
    var d := a / b;
    assert a == b * d + r;
    var k := q - d;
    assert b * k == r;
    MulMonotone(b, k);
    MulMonotone(b, -k);
  }

  lemma MulMonotone(b: int, k: int)
    requires b > 0
    ensures k >= 1 ==> b * k >= b
  {
    if k >= 1 {
      assert b * k == b + b * (k - 1);
    }
  }
}
