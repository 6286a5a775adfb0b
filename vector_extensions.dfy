/** `VectorExtensions` (Celesium/Utility/VectorExtensions.cs), the blocks for
    the integer vectors: replacing, dropping and negating one component, and
    widening a vector with extra components that default to 0. */
module VectorExtensions {
  import opened Int32Math
  import opened Vector2Ints
  import opened Vector3Ints
  import opened Vector4Ints

  // Vector2Int

  /** `Vector2Int.WithX(x)`: `X` replaced, the rest kept. */
  function WithX2(v: Vector2Int, x: Int32): (r: Vector2Int)
    ensures r.X == x && r.Y == v.Y
  {
    v.(X := x)
  }

  /** `Vector2Int.WithY(y)`: `Y` replaced, the rest kept. */
  function WithY2(v: Vector2Int, y: Int32): (r: Vector2Int)
    ensures r.Y == y && r.X == v.X
  {
    v.(Y := y)
  }

  /** `Vector2Int.InvertX()`: `WithX(-X)`, unchecked. */
  function InvertX2(v: Vector2Int): (r: Vector2Int)
    ensures r.X == Neg(v.X) && r.Y == v.Y
  {
    WithX2(v, Neg(v.X))
  }

  /** `Vector2Int.InvertY()`: `WithY(-Y)`, unchecked. */
  function InvertY2(v: Vector2Int): (r: Vector2Int)
    ensures r.Y == Neg(v.Y) && r.X == v.X
  {
    WithY2(v, Neg(v.Y))
  }

  // Vector3Int

  /** `Vector3Int.WithX(x)`: `X` replaced, the rest kept. */
  function WithX3(v: Vector3Int, x: Int32): (r: Vector3Int)
    ensures r.X == x && r.Y == v.Y && r.Z == v.Z
  {
    v.(X := x)
  }

  /** `Vector3Int.WithY(y)`: `Y` replaced, the rest kept. */
  function WithY3(v: Vector3Int, y: Int32): (r: Vector3Int)
    ensures r.Y == y && r.X == v.X && r.Z == v.Z
  {
    v.(Y := y)
  }

  /** `Vector3Int.WithZ(z)`: `Z` replaced, the rest kept. */
  function WithZ3(v: Vector3Int, z: Int32): (r: Vector3Int)
    ensures r.Z == z && r.X == v.X && r.Y == v.Y
  {
    v.(Z := z)
  }

  /** `Vector3Int.WithoutX()`: the other components, in order. */
  function WithoutX3(v: Vector3Int): (r: Vector2Int)
    ensures r.X == v.Y && r.Y == v.Z
  {
    Vector2Int(v.Y, v.Z)
  }

  /** `Vector3Int.WithoutY()`: the other components, in order. */
  function WithoutY3(v: Vector3Int): (r: Vector2Int)
    ensures r.X == v.X && r.Y == v.Z
  {
    Vector2Int(v.X, v.Z)
  }

  /** `Vector3Int.WithoutZ()`: the other components, in order. */
  function WithoutZ3(v: Vector3Int): (r: Vector2Int)
    ensures r.X == v.X && r.Y == v.Y
  {
    Vector2Int(v.X, v.Y)
  }

  /** `Vector3Int.InvertX()`: `WithX(-X)`, unchecked. */
  function InvertX3(v: Vector3Int): (r: Vector3Int)
    ensures r.X == Neg(v.X) && r.Y == v.Y && r.Z == v.Z
  {
    WithX3(v, Neg(v.X))
  }

  /** `Vector3Int.InvertY()`: `WithY(-Y)`, unchecked. */
  function InvertY3(v: Vector3Int): (r: Vector3Int)
    ensures r.Y == Neg(v.Y) && r.X == v.X && r.Z == v.Z
  {
    WithY3(v, Neg(v.Y))
  }

  /** `Vector3Int.InvertZ()`: `WithZ(-Z)`, unchecked. */
  function InvertZ3(v: Vector3Int): (r: Vector3Int)
    ensures r.Z == Neg(v.Z) && r.X == v.X && r.Y == v.Y
  {
    WithZ3(v, Neg(v.Z))
  }

  // Vector4Int

  /** `Vector4Int.WithX(x)`: `X` replaced, the rest kept. */
  function WithX4(v: Vector4Int, x: Int32): (r: Vector4Int)
    ensures r.X == x && r.Y == v.Y && r.Z == v.Z && r.W == v.W
  {
    v.(X := x)
  }

  /** `Vector4Int.WithY(y)`: `Y` replaced, the rest kept. */
  function WithY4(v: Vector4Int, y: Int32): (r: Vector4Int)
    ensures r.Y == y && r.X == v.X && r.Z == v.Z && r.W == v.W
  {
    v.(Y := y)
  }

  /** `Vector4Int.WithZ(z)`: `Z` replaced, the rest kept. */
  function WithZ4(v: Vector4Int, z: Int32): (r: Vector4Int)
    ensures r.Z == z && r.X == v.X && r.Y == v.Y && r.W == v.W
  {
    v.(Z := z)
  }

  /** `Vector4Int.WithW(w)`: `W` replaced, the rest kept. */
  function WithW4(v: Vector4Int, w: Int32): (r: Vector4Int)
    ensures r.W == w && r.X == v.X && r.Y == v.Y && r.Z == v.Z
  {
    v.(W := w)
  }

  /** `Vector4Int.WithoutX()`: the other components, in order. */
  function WithoutX4(v: Vector4Int): (r: Vector3Int)
    ensures r.X == v.Y && r.Y == v.Z && r.Z == v.W
  {
    Vector3Int(v.Y, v.Z, v.W)
  }

  /** `Vector4Int.WithoutY()`: the other components, in order. */
  function WithoutY4(v: Vector4Int): (r: Vector3Int)
    ensures r.X == v.X && r.Y == v.Z && r.Z == v.W
  {
    Vector3Int(v.X, v.Z, v.W)
  }

  /** `Vector4Int.WithoutZ()`: the other components, in order. */
  function WithoutZ4(v: Vector4Int): (r: Vector3Int)
    ensures r.X == v.X && r.Y == v.Y && r.Z == v.W
  {
    Vector3Int(v.X, v.Y, v.W)
  }

  /** `Vector4Int.WithoutW()`: the other components, in order. */
  function WithoutW4(v: Vector4Int): (r: Vector3Int)
    ensures r.X == v.X && r.Y == v.Y && r.Z == v.Z
  {
    Vector3Int(v.X, v.Y, v.Z)
  }

  /** `Vector4Int.InvertX()`: `WithX(-X)`, unchecked. */
  function InvertX4(v: Vector4Int): (r: Vector4Int)
    ensures r.X == Neg(v.X) && r.Y == v.Y && r.Z == v.Z && r.W == v.W
  {
    WithX4(v, Neg(v.X))
  }

  /** `Vector4Int.InvertY()`: `WithY(-Y)`, unchecked. */
  function InvertY4(v: Vector4Int): (r: Vector4Int)
    ensures r.Y == Neg(v.Y) && r.X == v.X && r.Z == v.Z && r.W == v.W
  {
    WithY4(v, Neg(v.Y))
  }

  /** `Vector4Int.InvertZ()`: `WithZ(-Z)`, unchecked. */
  function InvertZ4(v: Vector4Int): (r: Vector4Int)
    ensures r.Z == Neg(v.Z) && r.X == v.X && r.Y == v.Y && r.W == v.W
  {
    WithZ4(v, Neg(v.Z))
  }

  /** `Vector4Int.InvertW()`: `WithW(-W)`, unchecked. */
  function InvertW4(v: Vector4Int): (r: Vector4Int)
    ensures r.W == Neg(v.W) && r.X == v.X && r.Y == v.Y && r.Z == v.Z
  {
    WithW4(v, Neg(v.W))
  }

  /** `Vector2Int.ToVector3(z = 0)`. */
  function Vector2ToVector3(v: Vector2Int, z: Int32 := 0): (r: Vector3Int)
    ensures r.X == v.X && r.Y == v.Y && r.Z == z
  {
    Vector3Int(v.X, v.Y, z)
  }

  /** `Vector2Int.ToVector4(z = 0, w = 0)`. */
  function Vector2ToVector4(v: Vector2Int, z: Int32 := 0, w: Int32 := 0): (r: Vector4Int)
    ensures r.X == v.X && r.Y == v.Y && r.Z == z && r.W == w
  {
    Vector4Int(v.X, v.Y, z, w)
  }

  /** `Vector3Int.ToVector4(w = 0)`. */
  function Vector3ToVector4(v: Vector3Int, w: Int32 := 0): (r: Vector4Int)
    ensures r.X == v.X && r.Y == v.Y && r.Z == v.Z && r.W == w
  {
    Vector4Int(v.X, v.Y, v.Z, w)
  }

  /** Negating the same component twice gives the vector back, for every
      value: unchecked `-int.MinValue` is `int.MinValue` again. */
  lemma InvertTwice2(v: Vector2Int)
    ensures InvertX2(InvertX2(v)) == v && InvertY2(InvertY2(v)) == v
  {
    NegNeg(v.X);
    NegNeg(v.Y);
  }

  lemma InvertTwice3(v: Vector3Int)
    ensures InvertX3(InvertX3(v)) == v && InvertY3(InvertY3(v)) == v && InvertZ3(InvertZ3(v)) == v
  {
    NegNeg(v.X);
    NegNeg(v.Y);
    NegNeg(v.Z);
  }

  lemma InvertTwice4(v: Vector4Int)
    ensures InvertX4(InvertX4(v)) == v && InvertY4(InvertY4(v)) == v && InvertZ4(InvertZ4(v)) == v && InvertW4(InvertW4(v)) == v
  {
    NegNeg(v.X);
    NegNeg(v.Y);
    NegNeg(v.Z);
    NegNeg(v.W);
  }

  /** Writing a component back unchanged is the identity, and of two writes
      to the same component the last one wins. */
  lemma WithLastWins2(v: Vector2Int, a: Int32, b: Int32)
    ensures WithX2(v, v.X) == v && WithY2(v, v.Y) == v
    ensures WithX2(WithX2(v, a), b) == WithX2(v, b) && WithY2(WithY2(v, a), b) == WithY2(v, b)
  {
  }

  lemma WithLastWins3(v: Vector3Int, a: Int32, b: Int32)
    ensures WithX3(v, v.X) == v && WithY3(v, v.Y) == v && WithZ3(v, v.Z) == v
    ensures WithX3(WithX3(v, a), b) == WithX3(v, b) && WithY3(WithY3(v, a), b) == WithY3(v, b) && WithZ3(WithZ3(v, a), b) == WithZ3(v, b)
  {
  }

  lemma WithLastWins4(v: Vector4Int, a: Int32, b: Int32)
    ensures WithX4(v, v.X) == v && WithY4(v, v.Y) == v && WithZ4(v, v.Z) == v && WithW4(v, v.W) == v
    ensures WithX4(WithX4(v, a), b) == WithX4(v, b) && WithY4(WithY4(v, a), b) == WithY4(v, b) && WithZ4(WithZ4(v, a), b) == WithZ4(v, b) && WithW4(WithW4(v, a), b) == WithW4(v, b)
  {
  }

  /** Widening then dropping the added component is the identity. */
  lemma WidenThenDrop(v: Vector2Int, u: Vector3Int, z: Int32, w: Int32)
    ensures WithoutZ3(Vector2ToVector3(v, z)) == v
    ensures WithoutW4(Vector3ToVector4(u, w)) == u
    ensures WithoutZ3(WithoutW4(Vector2ToVector4(v, z, w))) == v
  {
  }

  /** Dropping a component then putting it back is the identity. */
  lemma DropThenWiden(u: Vector3Int, q: Vector4Int)
    ensures Vector2ToVector3(WithoutZ3(u), u.Z) == u
    ensures Vector3ToVector4(WithoutW4(q), q.W) == q
  {
  }

  /** Widening in one step or two gives the same vector; the defaults are 0. */
  lemma WideningComposes(v: Vector2Int, z: Int32, w: Int32)
    ensures Vector2ToVector4(v, z, w) == Vector3ToVector4(Vector2ToVector3(v, z), w)
    ensures Vector2ToVector4(v) == Vector4Int(v.X, v.Y, 0, 0)
  {
  }
}
