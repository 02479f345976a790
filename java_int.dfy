/**
 * Java's integer operators where they differ from Dafny's.
 *
 * Java `/` on `int` truncates toward zero, while Dafny's `/` is Euclidean.
 * Coordinates in the layout engine are centre-origin, so negative dividends
 * occur and every division in the model goes through `JDiv`.
 * Java's 32-bit wrap-around is not modelled: pixel sizes, depths and colour
 * channels stay far from the limits.
 */
module JavaInt {

  /** A Java `int`. */
  type Int32 = x: int | -0x8000_0000 <= x < 0x8000_0000

  function Abs(a: int): nat
  {
    if a < 0 then -a else a
  }

  /** Java's `a / b` on integers: the quotient rounded toward zero. */
  function JDiv(a: int, b: int): (q: int)
    requires b != 0
    // the remainder is smaller than the divisor ...
    ensures Abs(a - q * b) < Abs(b)
    // ... and has the sign of the dividend
    ensures a - q * b == 0 || (a - q * b < 0 <==> a < 0)
  {
    if a >= 0 && b > 0 then a / b
    else if a >= 0 then -(a / -b)
    else if b > 0 then -((-a) / b)
    else (-a) / (-b)
  }

  lemma JDivNonNegative(a: int, b: int)
    requires a >= 0 && b > 0
    ensures JDiv(a, b) == a / b
    ensures 0 <= JDiv(a, b) * b <= a
  {
    var q := a / b;
    assert a == q * b + a % b;
    assert q >= 0;
    assert q * b >= 0 by { MulNonNegative(q, b); }
  }

  lemma MulNonNegative(a: int, b: int)
    requires a >= 0 && b >= 0
    ensures a * b >= 0
  {
  }

  /** Truncation is symmetric: negating the dividend negates the quotient. */
  lemma JDivNegate(a: int, b: int)
    requires b != 0
    ensures JDiv(-a, b) == -JDiv(a, b)
  {
  }

  /** Dividing an exact multiple gives the factor back, whatever the signs. */
  lemma JDivExact(k: int, b: int)
    requires b != 0
    ensures JDiv(k * b, b) == k
  {
    var q := JDiv(k * b, b);
    var r := k * b - q * b;
    assert r == (k - q) * b;
    if k != q {
      assert Abs((k - q) * b) >= Abs(b) by {
        AbsProduct(k - q, b);
      }
    }
  }

  lemma AbsProduct(a: int, b: int)
    requires a != 0
    ensures Abs(a * b) >= Abs(b)
  {
    if a > 0 {
      if b >= 0 { assert a * b >= b; } else { assert a * b <= b; }
    } else {
      if b >= 0 { assert a * b <= -b; } else { assert a * b >= -b; }
    }
  }
}
