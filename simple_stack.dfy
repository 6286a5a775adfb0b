/** `SimpleStack<T>` (src/Celesium/Data/SimpleStack.cs): items stored in a
    dictionary under freshly generated ids. `Guid.NewGuid()` is modelled by a
    counter that hands out ids never used before. */
module SimpleStack {
  import opened Wrappers

  /** The ids below `n` that are keys of `m`. */
  function KeysBelow<T>(m: map<nat, T>, n: nat): set<nat>
  {
    set id | id in m && id < n
  }

  /** The stored values in id order. The source enumerates `backing.Values`,
      whose order is unspecified; only the values themselves are modelled. */
  function ValuesBelow<T>(m: map<nat, T>, n: nat): (items: seq<T>)
    ensures forall id :: id in m && id < n ==> m[id] in items
  {
    if n == 0 then []
    else
      var earlier := ValuesBelow(m, n - 1);
      if n - 1 in m then earlier + [m[n - 1]] else earlier
  }

  /** One value is enumerated per stored id. */
  lemma {:induction false} ValuesBelowCount<T>(m: map<nat, T>, n: nat)
    ensures |ValuesBelow(m, n)| == |KeysBelow(m, n)|
  {
    if n > 0 {
      ValuesBelowCount(m, n - 1);
      if n - 1 in m {
        assert KeysBelow(m, n) == KeysBelow(m, n - 1) + {n - 1};
        assert n - 1 !in KeysBelow(m, n - 1);
      } else {
        assert KeysBelow(m, n) == KeysBelow(m, n - 1);
      }
    }
  }

  /** `x` is stored under some id below `n`. */
  ghost predicate StoredBelow<T>(m: map<nat, T>, n: nat, x: T)
  {
    exists id :: id in m && id < n && m[id] == x
  }

  /** Every enumerated value is stored under some id below `n`. */
  lemma {:induction false} ValuesBelowStored<T>(m: map<nat, T>, n: nat, k: int)
    requires 0 <= k < |ValuesBelow(m, n)|
    ensures StoredBelow(m, n, ValuesBelow(m, n)[k])
  {
    var earlier := ValuesBelow(m, n - 1);
    if k < |earlier| {
      ValuesBelowStored(m, n - 1, k);
      var id :| id in m && id < n - 1 && m[id] == earlier[k];
      assert m[id] == ValuesBelow(m, n)[k];
    } else {
      assert m[n - 1] == ValuesBelow(m, n)[k];
    }
  }

  lemma ValuesBelowAllStored<T>(m: map<nat, T>, n: nat)
    ensures forall k :: 0 <= k < |ValuesBelow(m, n)| ==> StoredBelow(m, n, ValuesBelow(m, n)[k])
  {
    forall k | 0 <= k < |ValuesBelow(m, n)|
      ensures StoredBelow(m, n, ValuesBelow(m, n)[k])
    {
      ValuesBelowStored(m, n, k);
    }
  }

  class SimpleStack<T> {
    /** The private `backing` dictionary. */
    var backing: map<nat, T>
    /** The id generator: every id handed out so far is below it. */
    var nextId: nat

    ghost predicate Valid()
      reads this
    {
      forall id :: id in backing ==> id < nextId
    }

    constructor()
      ensures Valid() && backing == map[]
    {
      backing := map[];
      nextId := 0;
    }

    /** `Get(id)`: the stored item, or a missing-key failure. */
    function Get(id: nat): (r: Result<T>)
      reads this
      ensures r.Success? <==> id in backing
      ensures r.Success? ==> r.value == backing[id]
      ensures r.Failure? ==> r.error == KeyNotFound
    {
      if id in backing then Success(backing[id]) else Failure(KeyNotFound)
    }

    /** `Push(item)`: a fresh id, mapped to the item; other entries stay. */
    method Push(item: T) returns (id: nat)
      requires Valid()
      modifies this
      ensures Valid()
      ensures id !in old(backing)
      ensures backing == old(backing)[id := item]
      ensures Get(id) == Success(item)
      ensures forall other :: other != id ==> Get(other) == old(Get(other))
    {
      id := nextId;
      nextId := nextId + 1;
      backing := backing[id := item];
    }

    /** `Pop(id)`: the stored item, whose entry is removed; a missing id
        fails and leaves the store as it was. */
    method Pop(id: nat) returns (r: Result<T>)
      requires Valid()
      modifies this
      ensures Valid()
      ensures r == old(Get(id))
      ensures backing == old(backing) - {id}
      ensures Get(id) == Failure(KeyNotFound)
      ensures forall other :: other != id ==> Get(other) == old(Get(other))
    {
      r := Get(id);
      if r.Success? {
        backing := backing - {id};
      }
    }

    /** `Items()`: exactly the stored values, one per entry. */
    function Items(): (items: seq<T>)
      requires Valid()
      reads this
      ensures |items| == |backing|
      ensures forall id :: id in backing ==> backing[id] in items
      ensures forall k :: 0 <= k < |items| ==> StoredBelow(backing, nextId, items[k])
    {
      ValuesBelowCount(backing, nextId);
      ValuesBelowAllStored(backing, nextId);
      assert KeysBelow(backing, nextId) == backing.Keys;
      ValuesBelow(backing, nextId)
    }
  }

  /** Push then get returns the item; popping it twice fails the second time. */
  method PushGetPop<T>(item: T) returns (got: Result<T>, popped: Result<T>, again: Result<T>)
    ensures got == Success(item) && popped == Success(item)
    ensures again == Failure(KeyNotFound)
  {
    var stack := new SimpleStack<T>();
    var id := stack.Push(item);
    got := stack.Get(id);
    popped := stack.Pop(id);
    again := stack.Pop(id);
  }
}
