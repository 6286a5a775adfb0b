/** `ArbitraryContents<T>` (Celesium/Data/ArbitraryData.cs): a dictionary from
    string ids to values behind an indexer. */
module ArbitraryData {
  import opened Wrappers

  class ArbitraryContents<T> {
    /** The private `contents` dictionary. */
    var contents: map<string, T>

    /** `Default`: a new, empty instance. */
    constructor Default()
      ensures contents == map[]
    {
      contents := map[];
    }

    /** `With(id, value)`: a new instance holding exactly that one entry. */
    static method With(id: string, value: T) returns (c: ArbitraryContents<T>)
      ensures fresh(c)
      ensures c.contents == map[id := value]
    {
      c := new ArbitraryContents<T>.Default();
      c.Set(id, value);
    }

    /** The indexer's getter: the stored value, or a missing-key failure. */
    function Get(id: string): (r: Result<T>)
      reads this
      ensures r.Success? <==> id in contents
      ensures r.Success? ==> r.value == contents[id]
      ensures r.Failure? ==> r.error == KeyNotFound
    {
      if id in contents then Success(contents[id]) else Failure(KeyNotFound)
    }

    /** The indexer's setter: adds or overwrites the entry for `id`. */
    method Set(id: string, value: T)
      modifies this
      ensures contents == old(contents)[id := value]
      ensures Get(id) == Success(value)
      ensures forall other :: other != id ==> Get(other) == old(Get(other))
    {
      contents := contents[id := value];
    }
  }

  /** Reading an id from `Default` fails; from `With(id, v)` it gives `v`,
      and any other id still fails. */
  method ReadFreshContents<T>(id: string, other: string, value: T) returns (fromDefault: Result<T>, fromWith: Result<T>, otherFromWith: Result<T>)
    requires other != id
    ensures fromDefault == Failure(KeyNotFound)
    ensures fromWith == Success(value)
    ensures otherFromWith == Failure(KeyNotFound)
  {
    var empty := new ArbitraryContents<T>.Default();
    fromDefault := empty.Get(id);
    var single := ArbitraryContents.With(id, value);
    fromWith := single.Get(id);
    otherFromWith := single.Get(other);
  }

  /** A second write to the same id overwrites the first. */
  method OverwriteKeepsLast<T>(id: string, first: T, second: T) returns (r: Result<T>)
    ensures r == Success(second)
  {
    var c := ArbitraryContents.With(id, first);
    c.Set(id, second);
    r := c.Get(id);
  }
}
