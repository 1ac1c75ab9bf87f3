/**
 * The C# `int` (System.Int32) and the arithmetic the providers use on it:
 * unchecked `+` and `-` (two's complement wrap-around), and `/` and `%`
 * truncating toward zero, together with the exceptions they raise.
 */
module CSharpInt {

  const MinValue: int := -0x8000_0000
  const MaxValue: int := 0x7FFF_FFFF
  /** 2^32: the number of distinct `int` values. */
  const Modulus: int := 0x1_0000_0000

  type int32 = x: int | MinValue <= x <= MaxValue

  predicate InRange(x: int) {
    MinValue <= x <= MaxValue
  }

  function Abs(x: int): nat {
    if x < 0 then -x else x
  }

  /** The exceptions an `int` operator can raise. */
  datatype ArithmeticException = DivideByZeroException | OverflowException

  /** What evaluating an `int` expression does: yield a value or throw. */
  datatype Checked = Returns(value: int32) | Throws(exception: ArithmeticException)

  /**
   * Narrowing of a mathematical result to `int` in an unchecked context:
   * the unique `int` congruent to `x` modulo 2^32.
   */
  function Wrap(x: int): (r: int32)
    ensures (x - r) % Modulus == 0
    ensures InRange(x) ==> r == x
  {
    var m := x % Modulus;
    assert x == (x / Modulus) * Modulus + m;
    if m <= MaxValue then m else m - Modulus
  }

  /** Two `int` values congruent modulo 2^32 are equal. */
  lemma {:induction false} CongruentInt32sAreEqual(a: int32, b: int32)
    requires (a - b) % Modulus == 0
    ensures a == b
  {
    var q := (a - b) / Modulus;
    assert a - b == q * Modulus;
    assert -Modulus < a - b < Modulus;
  }

  /** `Wrap` is determined by the residue of its argument. */
  lemma {:induction false} WrapCongruent(x: int, y: int)
    requires (x - y) % Modulus == 0
    ensures Wrap(x) == Wrap(y)
  {
    var wx, wy := Wrap(x), Wrap(y);
    var p, q, s := (x - wx) / Modulus, (y - wy) / Modulus, (x - y) / Modulus;
    assert x - wx == p * Modulus;
    assert y - wy == q * Modulus;
    assert x - y == s * Modulus;
    assert wx - wy == (s - p + q) * Modulus;
    CongruentInt32sAreEqual(wx, wy);
  }

  /** C# `l / r` on integers: the quotient of the magnitudes, negated when the signs differ (truncation toward zero). */
  function Quotient(l: int, r: int): int
    requires r != 0
  {
    var n := Abs(l) / Abs(r);
    if (l < 0) == (r < 0) then n else -(n as int)
  }

  /** C# `l % r` on integers, which the language defines as `l - (l / r) * r`. */
  function Remainder(l: int, r: int): int
    requires r != 0
  {
    l - Quotient(l, r) * r
  }

  lemma SmallModulo(a: nat, b: nat)
    requires a < b
    ensures a % b == a
  {
  }

  lemma NegatedProducts(x: int, y: int)
    ensures (-x) * y == -(x * y) && x * (-y) == -(x * y)
  {
  }

  /**
   * The truncating remainder is the Euclidean remainder of the magnitudes,
   * carrying the sign of the dividend.
   */
  lemma {:induction false} RemainderOfMagnitudes(l: int, r: int)
    requires r != 0
    ensures Remainder(l, r) == if l < 0 then -(Abs(l) % Abs(r)) else Abs(l) % Abs(r)
  {
    var a: int, b: int := Abs(l), Abs(r);
    var n: int, m: int := a / b, a % b;
    var p := n * b;
    assert a == p + m;
    var q := Quotient(l, r);
    assert Remainder(l, r) == l - q * r;
    if (l < 0) == (r < 0) {
      assert q == n;
      if r < 0 {
        NegatedProducts(n, b);
        assert q * r == -p;
      } else {
        assert q * r == p;
      }
    } else {
      assert q == -n;
      if r < 0 {
        NegatedProducts(-n, b);
        assert q * r == p;
      } else {
        NegatedProducts(n, b);
        assert q * r == -p;
      }
    }
  }
}
