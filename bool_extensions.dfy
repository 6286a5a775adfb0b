/** `BoolExtensions` (src/Celesium/Extensions/BoolExtensions.cs): converting a
    boolean to 0/1 and inverting it, by value or through a `ref` parameter. */
module BoolExtensions {

  /** `value.ToInt()`: 1 for true, 0 for false. */
  function ToInt(value: bool): (n: int)
    ensures n == 0 || n == 1
    ensures n == 1 <==> value
  {
    if value then 1 else 0
  }

  /** `value.Inverted()`: the negation, whose integer form is `1 - ToInt(value)`. */
  function Inverted(value: bool): (r: bool)
    ensures r != value
    ensures ToInt(r) == 1 - ToInt(value)
  {
    !value
  }

  /** `Invert(ref value)`: the referenced variable receives its negation. The
      variable is the in/out parameter; nothing else is written. */
  method Invert(value: bool) returns (updated: bool)
    ensures updated == Inverted(value)
    ensures ToInt(updated) + ToInt(value) == 1
  {
    updated := value;
    updated := !updated;
  }

  /** Inverting twice gives the original value back. */
  lemma InvertedTwice(value: bool)
    ensures Inverted(Inverted(value)) == value
  {
  }

  /** Two in-place inversions restore the variable. */
  method InvertTwice(value: bool) returns (updated: bool)
    ensures updated == value
  {
    updated := Invert(value);
    updated := Invert(updated);
  }
}
