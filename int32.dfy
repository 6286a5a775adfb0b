/** C# `int` arithmetic: 32-bit two's complement. `+`, `-`, `*` and unary
    `-` wrap around (the default unchecked context); `/` truncates toward
    zero and throws on a zero divisor and on `int.MinValue / -1`. */
module Int32Math {
  import opened Wrappers

  const Min: int := -0x8000_0000
  const Max: int := 0x7FFF_FFFF
  /** The number of distinct 32-bit values. */
  const Modulus: int := 0x1_0000_0000

  type Int32 = i: int | Min <= i <= Max

  /** The 32-bit value congruent to `i`: what an unchecked operation keeps
      of the exact result. */
  function Wrap(i: int): (r: Int32)
    ensures (r - i) % Modulus == 0
    ensures Min <= i <= Max ==> r == i
  {
    var m := (i - Min) % Modulus;
    assert (m + Min - i) % Modulus == 0 by {
      assert i - Min == (i - Min) / Modulus * Modulus + m;
    }
    m + Min
  }

  /** Values that differ by a multiple of 2^32 wrap to the same 32-bit value. */
  lemma WrapCongruent(i: int, j: int)
    requires (i - j) % Modulus == 0
    ensures Wrap(i) == Wrap(j)
  {
    var q := (i - j) / Modulus;
    assert i - Min == (j - Min) + q * Modulus;
    var ri, rj := Wrap(i), Wrap(j);
    assert (ri - rj) % Modulus == 0 by {
      assert (ri - i) % Modulus == 0 && (rj - j) % Modulus == 0;
      var a, b := (ri - i) / Modulus, (rj - j) / Modulus;
      assert ri - rj == (a - b + q) * Modulus;
    }
    assert -Modulus < ri - rj < Modulus;
  }

  /** Unchecked `a + b`. */
  function Add(a: Int32, b: Int32): (r: Int32)
    ensures (r - (a + b)) % Modulus == 0
    ensures Min <= a + b <= Max ==> r == a + b
  {
    Wrap(a + b)
  }

  /** `int.MaxValue + 1` wraps to `int.MinValue`. */
  lemma AddOneToMax()
    ensures Add(Max, 1) == Min
  {
    assert (Max + 1 - Min) % Modulus == 0;
  }

  /** Unchecked `a - b`. */
  function Sub(a: Int32, b: Int32): (r: Int32)
    ensures (r - (a - b)) % Modulus == 0
    ensures Min <= a - b <= Max ==> r == a - b
  {
    Wrap(a - b)
  }

  /** Unchecked `a * b`. */
  function Mul(a: Int32, b: Int32): (r: Int32)
    ensures (r - a * b) % Modulus == 0
    ensures Min <= a * b <= Max ==> r == a * b
  {
    Wrap(a * b)
  }

  /** Unchecked unary `-a`; `-int.MinValue` is `int.MinValue`. */
  function Neg(a: Int32): (r: Int32)
    ensures a != Min ==> r == -a
    ensures a == Min ==> r == Min
  {
    Wrap(-(a as int))
  }

  function Abs(i: int): nat
  {
    if i < 0 then -i else i
  }

  /** Integer division rounding toward zero, as C# `/` does: the quotient of
      the magnitudes, negated when the signs differ. */
  function TruncDiv(a: int, b: int): (q: int)
    requires b != 0
    ensures TruncQuotient(a, b, q)
  {
    if (a < 0) == (b < 0) then
      SameSignQuotient(a, b);
      Abs(a) / Abs(b)
    else
      OppositeSignQuotient(a, b);
      -(Abs(a) / Abs(b))
  }

  /** `q` is a quotient of `a` by `b` rounded toward zero: no larger than `a`
      in magnitude, and leaving a remainder smaller than `b` in magnitude
      with the sign of `a`. */
  ghost predicate TruncQuotient(a: int, b: int, q: int)
  {
    var rem := a - q * b;
    && Abs(q) <= Abs(a)
    && Abs(rem) < Abs(b)
    && (rem == 0 || (rem < 0 <==> a < 0))
  }

  lemma SameSignQuotient(a: int, b: int)
    requires b != 0 && (a < 0) == (b < 0)
    ensures TruncQuotient(a, b, Abs(a) / Abs(b))
  {
    var x, y := Abs(a), Abs(b);
    MagnitudeQuotient(x, y);
    var q0: int := x / y;
    if a < 0 {
      SignedProducts(q0, y);
      assert q0 * b == -(q0 * y);
      assert a - q0 * b == -((x % y) as int);
    } else {
      assert q0 * b == q0 * y;
      assert a - q0 * b == x % y;
    }
  }

  lemma OppositeSignQuotient(a: int, b: int)
    requires b != 0 && (a < 0) != (b < 0)
    ensures TruncQuotient(a, b, -(Abs(a) / Abs(b)))
  {
    var x, y := Abs(a), Abs(b);
    MagnitudeQuotient(x, y);
    var q0: int := x / y;
    SignedProducts(q0, y);
    if a < 0 {
      assert (-q0) * b == -(q0 * y);
      assert a - (-q0) * b == -((x % y) as int);
    } else {
      assert (-q0) * b == q0 * y;
      assert a - (-q0) * b == x % y;
    }
  }

  lemma MagnitudeQuotient(x: nat, y: nat)
    requires y > 0
    ensures x == x / y * y + x % y && 0 <= x % y < y
    ensures 0 <= x / y <= x
  {
    QuotientBound(x / y, y);
  }

  lemma QuotientBound(q: nat, y: nat)
    requires y > 0
    ensures q <= q * y
  {
  }

  lemma SignedProducts(q: int, y: int)
    ensures (-q) * (-y) == q * y && (-q) * y == -(q * y) && q * (-y) == -(q * y)
  {
  }

  /** C# `a / b` on `int`: a zero divisor throws `DivideByZeroException`,
      `int.MinValue / -1` throws `OverflowException`, otherwise the
      quotient truncated toward zero. */
  function Div(a: Int32, b: Int32): (r: Result<Int32>)
    ensures r.Failure? <==> b == 0 || (a == Min && b == -1)
    ensures r.Failure? ==> r.error == (if b == 0 then DivideByZero else Overflow)
    ensures r.Success? ==> TruncQuotient(a, b, r.value)
  {
    if b == 0 then Failure(DivideByZero)
    else if a == Min && b == -1 then Failure(Overflow)
    else
      var q := TruncDiv(a, b);
      assert q <= Max by {
        assert Abs(q) <= Abs(a) <= Max + 1;
        assert a == Min && Abs(b) == 1 ==> q == Min;
      }
      Success(q)
  }

  /** Unchecked negation is an involution on every 32-bit value. */
  lemma NegNeg(a: Int32)
    ensures Neg(Neg(a)) == a
  {
  }

  /** Unchecked subtraction undoes unchecked addition, overflow or not. */
  lemma {:induction false} SubUndoesAdd(a: Int32, b: Int32)
    ensures Sub(Add(a, b), b) == a
  {
    var s := Add(a, b);
    assert (s - b - a) % Modulus == 0 by {
      assert (s - (a + b)) % Modulus == 0;
    }
    WrapCongruent(s - b, a);
  }

  /** Unchecked multiplication is commutative. */
  lemma MulCommutes(a: Int32, b: Int32)
    ensures Mul(a, b) == Mul(b, a)
  {
    assert a * b == b * a;
  }
}
