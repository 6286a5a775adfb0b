/** `Vector2Int` (Celesium/Data/Vector2Int.cs): a pair of C# `int`s with
    componentwise arithmetic, equality and a text form. */
module Vector2Ints {
  import opened Wrappers
  import opened Text
  import opened Int32Math

  datatype Vector2Int = Vector2Int(X: Int32, Y: Int32)

  /** `new Vector2Int(value)`: both components set to `value`. */
  function Splat(value: Int32): (v: Vector2Int)
    ensures v.X == value && v.Y == value
  {
    Vector2Int(value, value)
  }

  /** `Zero` (the default value, also `new Vector2Int()`), `One`, `UnitX`, `UnitY`. */
  const Zero: Vector2Int := Vector2Int(0, 0)
  const One: Vector2Int := Splat(1)
  const UnitX: Vector2Int := Vector2Int(1, 0)
  const UnitY: Vector2Int := Vector2Int(0, 1)

  /** `Equals(other)`: equal X and equal Y, which is equality of the values. */
  function Equals(v: Vector2Int, other: Vector2Int): (r: bool)
    ensures r <==> v == other
  {
    v.X == other.X && v.Y == other.Y
  }

  /** `operator ==`: delegates to `Equals`. */
  function Eq(left: Vector2Int, right: Vector2Int): (r: bool)
    ensures r <==> left == right
  {
    Equals(left, right)
  }

  /** `operator !=`: the negation of `==`. */
  function Ne(left: Vector2Int, right: Vector2Int): (r: bool)
    ensures r <==> left != right
  {
    !Eq(left, right)
  }

  /** `operator +`: componentwise unchecked sum. */
  function Add(left: Vector2Int, right: Vector2Int): (r: Vector2Int)
    ensures (r.X - (left.X + right.X)) % Modulus == 0 && (r.Y - (left.Y + right.Y)) % Modulus == 0
    ensures Min <= left.X + right.X <= Max && Min <= left.Y + right.Y <= Max ==>
              r.X == left.X + right.X && r.Y == left.Y + right.Y
  {
    Vector2Int(Int32Math.Add(left.X, right.X), Int32Math.Add(left.Y, right.Y))
  }

  /** `operator -`: componentwise unchecked difference. */
  function Sub(left: Vector2Int, right: Vector2Int): (r: Vector2Int)
    ensures (r.X - (left.X - right.X)) % Modulus == 0 && (r.Y - (left.Y - right.Y)) % Modulus == 0
    ensures Min <= left.X - right.X <= Max && Min <= left.Y - right.Y <= Max ==>
              r.X == left.X - right.X && r.Y == left.Y - right.Y
  {
    Vector2Int(Int32Math.Sub(left.X, right.X), Int32Math.Sub(left.Y, right.Y))
  }

  /** `operator *` on two vectors: componentwise unchecked product. */
  function Mul(left: Vector2Int, right: Vector2Int): (r: Vector2Int)
    ensures (r.X - left.X * right.X) % Modulus == 0 && (r.Y - left.Y * right.Y) % Modulus == 0
    ensures Min <= left.X * right.X <= Max && Min <= left.Y * right.Y <= Max ==>
              r.X == left.X * right.X && r.Y == left.Y * right.Y
  {
    Vector2Int(Int32Math.Mul(left.X, right.X), Int32Math.Mul(left.Y, right.Y))
  }

  /** `operator *(Vector2Int, int)`: `left * new Vector2Int(right)`. */
  function Scale(left: Vector2Int, right: Int32): (r: Vector2Int)
    ensures r == Vector2Int(Int32Math.Mul(left.X, right), Int32Math.Mul(left.Y, right))
  {
    Mul(left, Splat(right))
  }

  /** `operator *(int, Vector2Int)`: `right * left`. */
  function ScaleLeft(left: Int32, right: Vector2Int): (r: Vector2Int)
    ensures r == Mul(Splat(left), right)
  {
    MulCommutes(left, right.X);
    MulCommutes(left, right.Y);
    Scale(right, left)
  }

  /** `operator /` on two vectors: X is divided first, so its exception is the
      one thrown when both components would throw. */
  function Div(left: Vector2Int, right: Vector2Int): (r: Result<Vector2Int>)
    ensures r.Success? <==> Int32Math.Div(left.X, right.X).Success? && Int32Math.Div(left.Y, right.Y).Success?
    ensures r.Failure? ==> r.error == (if Int32Math.Div(left.X, right.X).Failure? then Int32Math.Div(left.X, right.X).error else Int32Math.Div(left.Y, right.Y).error)
    ensures r.Success? ==> TruncQuotient(left.X, right.X, r.value.X) && TruncQuotient(left.Y, right.Y, r.value.Y)
  {
    match Int32Math.Div(left.X, right.X)
    case Failure(e) => Failure(e)
    case Success(x) =>
      match Int32Math.Div(left.Y, right.Y)
      case Failure(e) => Failure(e)
      case Success(y) => Success(Vector2Int(x, y))
  }

  /** `operator /(Vector2Int, int)`: `value1 / new Vector2Int(value2)`. */
  function DivScalar(value1: Vector2Int, value2: Int32): (r: Result<Vector2Int>)
    ensures value2 == 0 ==> r == Failure(DivideByZero)
    ensures r.Success? <==> value2 != 0 && !(value2 == -1 && (value1.X == Min || value1.Y == Min))
    ensures value2 != 0 && r.Failure? ==> r.error == Overflow
    ensures r.Success? ==> TruncQuotient(value1.X, value2, r.value.X) && TruncQuotient(value1.Y, value2, r.value.Y)
  {
    Div(value1, Splat(value2))
  }

  /** `ToString(format, provider)` with the default format: `<X{sep} Y>`
      where `sep` is the culture's number group separator. */
  function ToString(v: Vector2Int, separator: string): (r: string)
    ensures |r| >= 5 && r[0] == '<' && r[|r| - 1] == '>'
  {
    "<" + IntToString(v.X) + separator + " " + IntToString(v.Y) + ">"
  }

  /** Subtraction undoes addition, overflow or not. */
  lemma SubUndoesAdd(v: Vector2Int, w: Vector2Int)
    ensures Sub(Add(v, w), w) == v
  {
    Int32Math.SubUndoesAdd(v.X, w.X);
    Int32Math.SubUndoesAdd(v.Y, w.Y);
  }

  /** The text form after `<`, grouped as number, separator, rest. */
  lemma ToStringAfterBracket(v: Vector2Int, separator: string)
    ensures ToString(v, separator)[1..] == IntToString(v.X) + ((separator + " ") + (IntToString(v.Y) + ">"))
  {
    var xv, yv := IntToString(v.X), IntToString(v.Y);
    assert ToString(v, separator) == "<" + (xv + ((separator + " ") + (yv + ">")));
  }

  /** The text form determines the vector when the separator does not start
      with a digit. */
  lemma ToStringDeterminesVector(v: Vector2Int, w: Vector2Int, separator: string)
    requires separator == [] || !('0' <= separator[0] <= '9')
    requires ToString(v, separator) == ToString(w, separator)
    ensures v == w
  {
    var xv, xw, yv, yw := IntToString(v.X), IntToString(w.X), IntToString(v.Y), IntToString(w.Y);
    ToStringAfterBracket(v, separator);
    ToStringAfterBracket(w, separator);
    SplitAfterNumber(xv, xw, separator + " ", yv + ">", yw + ">");
    IntToStringInjective(v.X, w.X);
    assert yv == (yv + ">")[..|yv|] == (yw + ">")[..|yw|] == yw;
    IntToStringInjective(v.Y, w.Y);
  }
}
