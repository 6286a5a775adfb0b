/** `CollectionsExtensions.AddFirstItem`
    (src/Celesium/Extensions/CollectionsExtensions.cs): a new array holding the
    given item followed by the elements of a list. */
module CollectionsExtensions {

  /** The list with `item` put in front of it: what every branch of
      `AddFirstItem` produces. */
  function Prepended<T>(list: seq<T>, item: T): (r: seq<T>)
    ensures |r| == |list| + 1
    ensures r[0] == item && r[1..] == list
  {
    [item] + list
  }

  /** `AddFirstItem` on a general `IList<T>`: allocate `list.Count + 1` slots,
      store the item first, then copy element `i` of the list to slot `i + 1`
      (the index loop of the default branch). The list is a value, so it cannot
      be changed. */
  method AddFirstItem<T(0)>(list: seq<T>, item: T) returns (newArray: array<T>)
    ensures newArray.Length == |list| + 1
    ensures newArray[0] == item
    ensures forall i :: 0 <= i < |list| ==> newArray[i + 1] == list[i]
    ensures newArray[..] == Prepended(list, item)
  {
    newArray := new T[|list| + 1];
    newArray[0] := item;
    var i := 0;
    while i < |list|
      invariant 0 <= i <= |list|
      invariant newArray[0] == item
      invariant forall k :: 0 <= k < i ==> newArray[k + 1] == list[k]
    {
      newArray[i + 1] := list[i];
      i := i + 1;
    }
    assert newArray[..] == Prepended(list, item);
  }

  /** `AddFirstItem` on an array (the `Array.Copy` branch): the same result
      as the index loop, and the source array is only read. */
  method AddFirstItemToArray<T(0)>(source: array<T>, item: T) returns (newArray: array<T>)
    ensures newArray.Length == source.Length + 1
    ensures newArray[..] == Prepended(source[..], item)
    ensures newArray != source
  {
    newArray := new T[source.Length + 1];
    newArray[0] := item;
    var i := 0;
    while i < source.Length
      invariant 0 <= i <= source.Length
      invariant newArray[0] == item
      invariant forall k :: 0 <= k < i ==> newArray[k + 1] == source[k]
    {
      newArray[i + 1] := source[i];
      i := i + 1;
    }
    assert newArray[..] == Prepended(source[..], item);
  }
}
