/** `FuzzySearch` (src/Celesium/Utility/FuzzySearch.cs): unit-cost Levenshtein
    distance, computed by filling a 2-D table, and the closest option to an
    input under that distance. */
module FuzzySearch {
  import opened Wrappers
  import opened Text

  function Min(a: nat, b: nat): nat
  {
    if a <= b then a else b
  }

  /** 0 when the i-th character of `s` equals the j-th of `t` (1-based), else 1. */
  function Cost(s: string, t: string, i: nat, j: nat): nat
    requires 1 <= i <= |s| && 1 <= j <= |t|
  {
    if s[i - 1] == t[j - 1] then 0 else 1
  }

  /** The entry `d[i, j]` of the table: the edit distance between the first `i`
      characters of `s` and the first `j` of `t`, by the recurrence
      `d[i,0] = i`, `d[0,j] = j`,
      `d[i,j] = min(d[i-1,j] + 1, d[i,j-1] + 1, d[i-1,j-1] + cost)`. */
  function Distance(s: string, t: string, i: nat, j: nat): nat
    requires i <= |s| && j <= |t|
    decreases i + j
  {
    if i == 0 then j
    else if j == 0 then i
    else Min(Min(Distance(s, t, i - 1, j) + 1, Distance(s, t, i, j - 1) + 1),
             Distance(s, t, i - 1, j - 1) + Cost(s, t, i, j))
  }

  /** The Levenshtein distance between two whole strings. */
  function Levenshtein(s: string, t: string): nat
  {
    Distance(s, t, |s|, |t|)
  }

  /** A string is at distance 0 from itself. */
  lemma {:induction false} DistanceToSelf(s: string, i: nat)
    requires i <= |s|
    ensures Distance(s, s, i, i) == 0
    decreases i
  {
    if i > 0 {
      DistanceToSelf(s, i - 1);
    }
  }

  /** The distance from or to the empty string is the other string's length. */
  lemma LevenshteinBaseCases(s: string, t: string)
    ensures Levenshtein(s, s) == 0
    ensures Levenshtein("", t) == |t|
    ensures Levenshtein(s, "") == |s|
  {
    DistanceToSelf(s, |s|);
  }

  /** The distance is at least the difference of the lengths. */
  lemma {:induction false} DistanceLowerBound(s: string, t: string, i: nat, j: nat)
    requires i <= |s| && j <= |t|
    ensures j - i <= Distance(s, t, i, j) && i - j <= Distance(s, t, i, j)
    decreases i + j
  {
    if i > 0 && j > 0 {
      DistanceLowerBound(s, t, i - 1, j);
      DistanceLowerBound(s, t, i, j - 1);
      DistanceLowerBound(s, t, i - 1, j - 1);
    }
  }

  /** The distance is at most the longer length. */
  lemma {:induction false} DistanceUpperBound(s: string, t: string, i: nat, j: nat)
    requires i <= |s| && j <= |t|
    ensures Distance(s, t, i, j) <= (if i <= j then j else i)
    decreases i + j
  {
    if i > 0 && j > 0 {
      DistanceUpperBound(s, t, i - 1, j - 1);
      assert Distance(s, t, i, j) <= Distance(s, t, i - 1, j - 1) + 1;
    }
  }

  /** The distance does not depend on the order of its arguments: the table
      entry `d[i, j]` for `s`, `t` is the entry `d[j, i]` for `t`, `s`, since
      deletion and insertion swap roles and the replacement cost is the same. */
  lemma {:induction false} DistanceSymmetric(s: string, t: string, i: nat, j: nat)
    requires i <= |s| && j <= |t|
    ensures Distance(s, t, i, j) == Distance(t, s, j, i)
    decreases i + j
  {
    if i > 0 && j > 0 {
      DistanceSymmetric(s, t, i - 1, j);
      DistanceSymmetric(s, t, i, j - 1);
      DistanceSymmetric(s, t, i - 1, j - 1);
      assert Cost(s, t, i, j) == Cost(t, s, j, i);
    }
  }

  /** `GetLevenshteinDistance(s, t)`: the early returns for equal and empty
      strings, then the table `d` filled row by row. */
  method GetLevenshteinDistance(s: string, t: string) returns (r: nat)
    ensures r == Levenshtein(s, t)
  {
    if s == t {
      DistanceToSelf(s, |s|);
      return 0;
    }
    if |s| == 0 {
      return |t|;
    }
    if |t| == 0 {
      return |s|;
    }
    var d := new nat[|s| + 1, |t| + 1];
    var i := 0;
    while i <= |s|
      invariant 0 <= i <= |s| + 1
      invariant forall a :: 0 <= a < i ==> d[a, 0] == a
    {
      d[i, 0] := i;
      i := i + 1;
    }
    var j := 0;
    while j <= |t|
      invariant 0 <= j <= |t| + 1
      invariant forall a :: 0 <= a <= |s| ==> d[a, 0] == a
      invariant forall b :: 0 <= b < j ==> d[0, b] == b
    {
      d[0, j] := j;
      j := j + 1;
    }
    i := 1;
    while i <= |s|
      invariant 1 <= i <= |s| + 1
      invariant forall a, b {:trigger d[a, b]} :: 0 <= a < i && 0 <= b <= |t| ==> d[a, b] == Distance(s, t, a, b)
      invariant forall a :: i <= a <= |s| ==> d[a, 0] == a
    {
      FillRow(s, t, d, i);
      i := i + 1;
    }
    r := d[|s|, |t|];
  }

  /** The inner loop of `GetLevenshteinDistance`: row `i` of the table from
      row `i - 1`, left to right. */
  method FillRow(s: string, t: string, d: array2<nat>, i: nat)
    requires d.Length0 == |s| + 1 && d.Length1 == |t| + 1 && 1 <= i <= |s|
    requires forall a, b {:trigger d[a, b]} :: 0 <= a < i && 0 <= b <= |t| ==> d[a, b] == Distance(s, t, a, b)
    requires d[i, 0] == i
    modifies d
    ensures forall a, b {:trigger d[a, b]} :: 0 <= a <= i && 0 <= b <= |t| ==> d[a, b] == Distance(s, t, a, b)
    ensures forall a :: i < a <= |s| ==> d[a, 0] == old(d[a, 0])
  {
    var j := 1;
    while j <= |t|
      invariant 1 <= j <= |t| + 1
      invariant forall a, b {:trigger d[a, b]} :: 0 <= a < i && 0 <= b <= |t| ==> d[a, b] == Distance(s, t, a, b)
      invariant forall b {:trigger d[i, b]} :: 0 <= b < j ==> d[i, b] == Distance(s, t, i, b)
      invariant forall a :: i < a <= |s| ==> d[a, 0] == old(d[a, 0])
    {
      var cost := if s[i - 1] == t[j - 1] then 0 else 1;
      var above, left, diagonal := d[i - 1, j], d[i, j - 1], d[i - 1, j - 1];
      NextCell(s, t, i, j, above, left, diagonal);
      var cell := Min(Min(above + 1, left + 1), diagonal + cost);
      d[i, j] := cell;
      j := j + 1;
    }
  }

  /** The recurrence: a cell from its upper, left and upper-left neighbours. */
  lemma NextCell(s: string, t: string, i: nat, j: nat, above: nat, left: nat, diagonal: nat)
    requires 1 <= i <= |s| && 1 <= j <= |t|
    requires above == Distance(s, t, i - 1, j) && left == Distance(s, t, i, j - 1)
    requires diagonal == Distance(s, t, i - 1, j - 1)
    ensures Min(Min(above + 1, left + 1), diagonal + (if s[i - 1] == t[j - 1] then 0 else 1)) == Distance(s, t, i, j)
  {
  }

  /** `OrderBy(option => distance).First()`: `OrderBy` is a stable sort, so the
      first element is the earliest option of least distance. */
  function ClosestIndex(input: string, options: seq<string>): (k: nat)
    requires |options| > 0
    ensures k < |options|
    ensures forall j :: 0 <= j < |options| ==> Levenshtein(input, options[k]) <= Levenshtein(input, options[j])
    ensures forall j :: 0 <= j < k ==> Levenshtein(input, options[k]) < Levenshtein(input, options[j])
    decreases |options|
  {
    if |options| == 1 then 0
    else
      var k := ClosestIndex(input, options[..|options| - 1]);
      if Levenshtein(input, options[|options| - 1]) < Levenshtein(input, options[k]) then |options| - 1 else k
  }

  /** `FindClosest(input, options)`: null for a null, empty or white-space
      input and for no options; otherwise the option closest to the input,
      the earliest one on a tie. */
  function FindClosest(input: Option<string>, options: seq<string>): (r: Option<string>)
    ensures r.None? <==> input.None? || IsBlank(input.value) || options == []
    ensures r.Some? ==> r.value in options
    ensures r.Some? ==> forall o :: o in options ==> Levenshtein(input.value, r.value) <= Levenshtein(input.value, o)
    ensures r.Some? ==>
      exists k :: && 0 <= k < |options| && options[k] == r.value
                  && forall j :: 0 <= j < k ==> Levenshtein(input.value, options[j]) > Levenshtein(input.value, r.value)
  {
    if input.None? || IsBlank(input.value) || |options| == 0 then None
    else Some(options[ClosestIndex(input.value, options)])
  }
}
