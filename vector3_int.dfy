/** `Vector3Int` (src/Celesium/Data/Vector3Int.cs): 3 C# `int`s with componentwise arithmetic,
    equality and a text form. */
module Vector3Ints {
  import opened Wrappers
  import opened Text
  import opened Int32Math
  import Vector2Ints

  datatype Vector3Int = Vector3Int(X: Int32, Y: Int32, Z: Int32)

  /** `new Vector3Int(value)`: every component set to `value`. */
  function Splat(value: Int32): (v: Vector3Int)
    ensures v.X == value && v.Y == value && v.Z == value
  {
    Vector3Int(value, value, value)
  }

  /** `Zero` (the default value, also `new Vector3Int()`) and `One`. */
  const Zero: Vector3Int := Vector3Int(0, 0, 0)
  const One: Vector3Int := Splat(1)

  /** `Equals(other)`: every component equal, which is equality of the values. */
  function Equals(v: Vector3Int, other: Vector3Int): (r: bool)
    ensures r <==> v == other
  {
    v.X == other.X && v.Y == other.Y && v.Z == other.Z
  }

  /** `operator ==`: delegates to `Equals`. */
  function Eq(left: Vector3Int, right: Vector3Int): (r: bool)
    ensures r <==> left == right
  {
    Equals(left, right)
  }

  /** `operator !=`: the negation of `==`. */
  function Ne(left: Vector3Int, right: Vector3Int): (r: bool)
    ensures r <==> left != right
  {
    !Eq(left, right)
  }

  /** `operator +`: componentwise unchecked sum. */
  function Add(left: Vector3Int, right: Vector3Int): (r: Vector3Int)
    ensures (r.X - (left.X + right.X)) % Modulus == 0 && (r.Y - (left.Y + right.Y)) % Modulus == 0 && (r.Z - (left.Z + right.Z)) % Modulus == 0
    ensures Min <= left.X + right.X <= Max && Min <= left.Y + right.Y <= Max && Min <= left.Z + right.Z <= Max ==>
              r.X == left.X + right.X && r.Y == left.Y + right.Y && r.Z == left.Z + right.Z
  {
    Vector3Int(Int32Math.Add(left.X, right.X), Int32Math.Add(left.Y, right.Y), Int32Math.Add(left.Z, right.Z))
  }

  /** `operator -`: componentwise unchecked difference. */
  function Sub(left: Vector3Int, right: Vector3Int): (r: Vector3Int)
    ensures (r.X - (left.X - right.X)) % Modulus == 0 && (r.Y - (left.Y - right.Y)) % Modulus == 0 && (r.Z - (left.Z - right.Z)) % Modulus == 0
    ensures Min <= left.X - right.X <= Max && Min <= left.Y - right.Y <= Max && Min <= left.Z - right.Z <= Max ==>
              r.X == left.X - right.X && r.Y == left.Y - right.Y && r.Z == left.Z - right.Z
  {
    Vector3Int(Int32Math.Sub(left.X, right.X), Int32Math.Sub(left.Y, right.Y), Int32Math.Sub(left.Z, right.Z))
  }

  /** `operator *` on two vectors: componentwise unchecked product. */
  function Mul(left: Vector3Int, right: Vector3Int): (r: Vector3Int)
    ensures (r.X - left.X * right.X) % Modulus == 0 && (r.Y - left.Y * right.Y) % Modulus == 0 && (r.Z - left.Z * right.Z) % Modulus == 0
    ensures Min <= left.X * right.X <= Max && Min <= left.Y * right.Y <= Max && Min <= left.Z * right.Z <= Max ==>
              r.X == left.X * right.X && r.Y == left.Y * right.Y && r.Z == left.Z * right.Z
  {
    Vector3Int(Int32Math.Mul(left.X, right.X), Int32Math.Mul(left.Y, right.Y), Int32Math.Mul(left.Z, right.Z))
  }

  /** `operator *(Vector3Int, int)`: `left * new Vector3Int(right)`. */
  function Scale(left: Vector3Int, right: Int32): (r: Vector3Int)
    ensures r == Vector3Int(Int32Math.Mul(left.X, right), Int32Math.Mul(left.Y, right), Int32Math.Mul(left.Z, right))
  {
    Mul(left, Splat(right))
  }

  /** `operator *(int, Vector3Int)`: `right * left`. */
  function ScaleLeft(left: Int32, right: Vector3Int): (r: Vector3Int)
    ensures r == Mul(Splat(left), right)
  {
    MulCommutes(left, right.X);
    MulCommutes(left, right.Y);
    MulCommutes(left, right.Z);
    Scale(right, left)
  }

  /** The exception C# `a / b` throws, if any. */
  function DivError(a: Int32, b: Int32): Option<Error>
  {
    match Int32Math.Div(a, b)
    case Failure(e) => Some(e)
    case Success(_) => None
  }

  /** `operator /` on two vectors: the components are divided in the order
      X, Y, Z, so the first one that throws decides the exception. */
  function Div(left: Vector3Int, right: Vector3Int): (r: Result<Vector3Int>)
    ensures r.Success? <==> DivError(left.X, right.X) == None && DivError(left.Y, right.Y) == None && DivError(left.Z, right.Z) == None
    ensures r.Failure? ==> r.error == (if DivError(left.X, right.X).Some? then DivError(left.X, right.X).value else if DivError(left.Y, right.Y).Some? then DivError(left.Y, right.Y).value else DivError(left.Z, right.Z).value)
    ensures r.Success? ==> TruncQuotient(left.X, right.X, r.value.X) && TruncQuotient(left.Y, right.Y, r.value.Y) && TruncQuotient(left.Z, right.Z, r.value.Z)
  {
    match Int32Math.Div(left.X, right.X)
    case Failure(e) => Failure(e)
    case Success(x) =>
      match Int32Math.Div(left.Y, right.Y)
      case Failure(e) => Failure(e)
      case Success(y) =>
        match Int32Math.Div(left.Z, right.Z)
        case Failure(e) => Failure(e)
        case Success(z) =>
          Success(Vector3Int(x, y, z))
  }

  /** `operator /(Vector3Int, int)`: `value1 / new Vector3Int(value2)`. */
  function DivScalar(value1: Vector3Int, value2: Int32): (r: Result<Vector3Int>)
    ensures value2 == 0 ==> r == Failure(DivideByZero)
    ensures r.Success? <==> value2 != 0 && !(value2 == -1 && (value1.X == Min || value1.Y == Min || value1.Z == Min))
    ensures value2 != 0 && r.Failure? ==> r.error == Overflow
    ensures r.Success? ==> TruncQuotient(value1.X, value2, r.value.X) && TruncQuotient(value1.Y, value2, r.value.Y) && TruncQuotient(value1.Z, value2, r.value.Z)
  {
    Div(value1, Splat(value2))
  }

  /** `ToString(format, provider)` as written: `<X{sep} Y>`, the same text
      as a `Vector2Int`; Z is not printed. */
  function ToString(v: Vector3Int, separator: string): (r: string)
    ensures r == Vector2Ints.ToString(Vector2Ints.Vector2Int(v.X, v.Y), separator)
  {
    "<" + IntToString(v.X) + separator + " " + IntToString(v.Y) + ">"
  }

  /** Subtraction undoes addition, overflow or not. */
  lemma SubUndoesAdd(v: Vector3Int, w: Vector3Int)
    ensures Sub(Add(v, w), w) == v
  {
    Int32Math.SubUndoesAdd(v.X, w.X);
    Int32Math.SubUndoesAdd(v.Y, w.Y);
    Int32Math.SubUndoesAdd(v.Z, w.Z);
  }

  /** Two different vectors with the same text: the rendering loses Z. */
  lemma ToStringOmitsZ(separator: string)
    ensures Zero != Vector3Int(0, 0, 1)
    ensures ToString(Zero, separator) == ToString(Vector3Int(0, 0, 1), separator)
  {
  }

  /** The rendering with every component, `<X{sep} Y{sep} ...>`, as the
      `System.Numerics` vectors print theirs. */
  function FullToString(v: Vector3Int, separator: string): (r: string)
    ensures |r| >= 7 && r[0] == '<' && r[|r| - 1] == '>'
  {
    var tail := separator + " ";
    "<" + (IntToString(v.X) + (tail + (IntToString(v.Y) + (tail + (IntToString(v.Z) + ">")))))
  }

  /** The full text after `<`, grouped as number, separator, rest. */
  lemma FullToStringAfterBracket(v: Vector3Int, separator: string)
    ensures var tail := separator + " ";
      FullToString(v, separator)[1..] == IntToString(v.X) + (tail + (IntToString(v.Y) + (tail + (IntToString(v.Z) + ">"))))
  {
  }

  /** The full text determines the vector when the separator does not start
      with a digit. */
  lemma FullToStringDeterminesVector(v: Vector3Int, w: Vector3Int, separator: string)
    requires separator == [] || !('0' <= separator[0] <= '9')
    requires FullToString(v, separator) == FullToString(w, separator)
    ensures v == w
  {
    var tail := separator + " ";
    FullToStringAfterBracket(v, separator);
    FullToStringAfterBracket(w, separator);
    var rv0, rw0 := IntToString(v.Y) + (tail + (IntToString(v.Z) + ">")), IntToString(w.Y) + (tail + (IntToString(w.Z) + ">"));
    SplitAfterNumber(IntToString(v.X), IntToString(w.X), tail, rv0, rw0);
    IntToStringInjective(v.X, w.X);
    var rv1, rw1 := IntToString(v.Z) + ">", IntToString(w.Z) + ">";
    SplitAfterNumber(IntToString(v.Y), IntToString(w.Y), tail, rv1, rw1);
    IntToStringInjective(v.Y, w.Y);
    var lv, lw := IntToString(v.Z), IntToString(w.Z);
    assert lv == (lv + ">")[..|lv|] == (lw + ">")[..|lw|] == lw;
    IntToStringInjective(v.Z, w.Z);
  }
}
