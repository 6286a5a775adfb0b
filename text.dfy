/** String helpers the modelled C# code gets from the .NET base library:
    decimal rendering of integers, Char.IsWhiteSpace, TrimStart,
    IsNullOrWhiteSpace, PadLeft on the empty string and joining. */
module Text {

  function DigitChar(d: nat): (c: char)
    requires d < 10
    ensures '0' <= c <= '9'
  {
    "0123456789"[d]
  }

  /** Int32.ToString() of a non-negative value: shortest decimal form. */
  function NatToString(n: nat): (s: string)
    ensures 1 <= |s|
    ensures forall i :: 0 <= i < |s| ==> '0' <= s[i] <= '9'
    decreases n
  {
    if n < 10 then [DigitChar(n)] else NatToString(n / 10) + [DigitChar(n % 10)]
  }

  /** Int32.ToString() with the invariant culture's "-" sign. */
  function IntToString(i: int): (s: string)
    ensures 1 <= |s|
    ensures (s[0] == '-') <==> i < 0
    ensures forall k :: 1 <= k < |s| ==> '0' <= s[k] <= '9'
  {
    if i < 0 then "-" + NatToString(-i) else NatToString(i)
  }

  lemma DigitCharInjective(d: nat, e: nat)
    requires d < 10 && e < 10 && DigitChar(d) == DigitChar(e)
    ensures d == e
  {
  }

  /** A single digit exactly for the values below ten. */
  lemma NatToStringLength(n: nat)
    ensures |NatToString(n)| == 1 <==> n < 10
  {
  }

  /** Distinct values have distinct decimal forms. */
  lemma {:induction false} NatToStringInjective(a: nat, b: nat)
    requires NatToString(a) == NatToString(b)
    ensures a == b
    decreases a
  {
    NatToStringLength(a);
    NatToStringLength(b);
    if a < 10 {
      DigitCharInjective(a, b);
    } else {
      var s := NatToString(a);
      assert NatToString(a / 10) == s[..|s| - 1] == NatToString(b / 10);
      NatToStringInjective(a / 10, b / 10);
      DigitCharInjective(a % 10, b % 10);
    }
  }

  /** Distinct integers have distinct renderings. */
  lemma IntToStringInjective(a: int, b: int)
    requires IntToString(a) == IntToString(b)
    ensures a == b
  {
    if a < 0 {
      NegativeToStringInjective(a, b);
    } else {
      NonNegativeToStringInjective(a, b);
    }
  }

  /** Two renderings with a sign agree only on the same magnitude. */
  lemma NegativeToStringInjective(a: int, b: int)
    requires a < 0 && IntToString(a) == IntToString(b)
    ensures a == b
  {
    assert IntToString(b)[0] == '-';
    var m, n: nat := -a, -b;
    assert NatToString(m) == ("-" + NatToString(m))[1..];
    NatToStringInjective(m, n);
  }

  /** Two renderings without a sign agree only on the same value. */
  lemma NonNegativeToStringInjective(a: int, b: int)
    requires a >= 0 && IntToString(a) == IntToString(b)
    ensures a == b
  {
    assert IntToString(b)[0] != '-';
    NatToStringInjective(a, b);
  }

  /** Char.IsWhiteSpace: the Unicode White_Space characters (categories Zs,
      Zl, Zp) plus U+0009..U+000D and U+0085. */
  predicate IsWhiteSpace(c: char)
  {
    || ('\U{9}' <= c <= '\U{D}')
    || c == ' ' || c == '\U{85}' || c == '\U{A0}' || c == '\U{1680}'
    || ('\U{2000}' <= c <= '\U{200A}')
    || c == '\U{2028}' || c == '\U{2029}' || c == '\U{202F}' || c == '\U{205F}' || c == '\U{3000}'
  }

  /** string.IsNullOrWhiteSpace on a non-null string. */
  predicate IsBlank(s: string)
  {
    forall i :: 0 <= i < |s| ==> IsWhiteSpace(s[i])
  }

  /** string.TrimStart(): drops the leading white space. */
  function TrimStart(s: string): (r: string)
    ensures |r| <= |s|
    ensures r == [] || !IsWhiteSpace(r[0])
  {
    if s == [] || !IsWhiteSpace(s[0]) then s else TrimStart(s[1..])
  }

  /** TrimStart keeps a suffix of its input and what it drops is white
      space only. */
  lemma {:induction false} TrimStartDropsWhiteSpace(s: string)
    ensures TrimStart(s) == s[|s| - |TrimStart(s)|..]
    ensures IsBlank(s[..|s| - |TrimStart(s)|])
  {
    if s != [] && IsWhiteSpace(s[0]) {
      var r := TrimStart(s[1..]);
      TrimStartDropsWhiteSpace(s[1..]);
      assert s[1..][..|s[1..]| - |r|] == s[1..|s| - |r|];
      assert s[1..][|s[1..]| - |r|..] == s[|s| - |r|..];
    }
  }

  /** A start-trimmed string is null or white space exactly when it is empty. */
  lemma TrimStartBlank(s: string)
    ensures IsBlank(TrimStart(s)) <==> TrimStart(s) == []
  {
  }

  /** A string that does not start with white space is its own TrimStart. */
  lemma TrimStartKeeps(s: string)
    requires s == [] || !IsWhiteSpace(s[0])
    ensures TrimStart(s) == s
  {
  }

  /** A leading white-space character is dropped by TrimStart. */
  lemma TrimStartDrops(s: string)
    requires s != [] && IsWhiteSpace(s[0])
    ensures TrimStart(s) == TrimStart(s[1..])
  {
  }

  /** string.Empty.PadLeft(n): n spaces. */
  function Spaces(n: nat): (r: string)
    ensures |r| == n && forall i :: 0 <= i < n ==> r[i] == ' '
  {
    if n == 0 then "" else Spaces(n - 1) + " "
  }

  /** string.Join(sep, xs). */
  function Join(xs: seq<string>, sep: string): string
  {
    if xs == [] then ""
    else if |xs| == 1 then xs[0]
    else xs[0] + sep + Join(xs[1..], sep)
  }

  /** Joining one more string adds the separator and the string at the end. */
  lemma {:induction false} JoinAppend(xs: seq<string>, x: string, sep: string)
    requires |xs| >= 1
    ensures Join(xs + [x], sep) == Join(xs, sep) + sep + x
  {
    if |xs| > 1 {
      JoinAppend(xs[1..], x, sep);
      assert (xs + [x])[1..] == xs[1..] + [x];
    } else {
      assert (xs + [x])[1..] == [x];
    }
  }

  /** Splitting on a single separator character with
      StringSplitOptions.RemoveEmptyEntries: the maximal separator-free,
      non-empty runs, in order. */
  function SplitRemoveEmpty(s: string, sep: char): (parts: seq<string>)
    ensures forall i :: 0 <= i < |parts| ==> parts[i] != "" && sep !in parts[i]
    decreases |s|
  {
    SplitFrom(s, sep, "")
  }

  function SplitFrom(s: string, sep: char, run: string): (parts: seq<string>)
    requires sep !in run
    ensures forall i :: 0 <= i < |parts| ==> parts[i] != "" && sep !in parts[i]
    decreases |s|
  {
    if s == [] then (if run == "" then [] else [run])
    else if s[0] == sep then (if run == "" then [] else [run]) + SplitFrom(s[1..], sep, "")
    else SplitFrom(s[1..], sep, run + [s[0]])
  }

  /** The characters of a concatenation. */
  lemma CharOfConcat(x: string, y: string, k: int)
    ensures 0 <= k < |x| ==> (x + y)[k] == x[k]
    ensures |x| <= k < |x| + |y| ==> (x + y)[k] == y[k - |x|]
  {
  }

  /** Splitting a rendering after a number: a number's characters after the
      first are digits, so a separator that does not start with a digit marks
      where the number ends. */
  lemma SplitAfterNumber(a: string, b: string, tail: string, restA: string, restB: string)
    requires |a| >= 1 && |b| >= 1
    requires forall k :: 1 <= k < |a| ==> '0' <= a[k] <= '9'
    requires forall k :: 1 <= k < |b| ==> '0' <= b[k] <= '9'
    requires |tail| >= 1 && !('0' <= tail[0] <= '9')
    requires a + (tail + restA) == b + (tail + restB)
    ensures a == b && restA == restB
  {
    if |a| < |b| {
      CharOfConcat(a, tail + restA, |a|);
      CharOfConcat(b, tail + restB, |a|);
      assert false;
    } else if |b| < |a| {
      CharOfConcat(a, tail + restA, |b|);
      CharOfConcat(b, tail + restB, |b|);
      assert false;
    }
    var s := a + (tail + restA);
    assert a == s[..|a|] == b;
    assert tail + restA == s[|a|..] == tail + restB;
    assert restA == (tail + restA)[|tail|..] == (tail + restB)[|tail|..] == restB;
  }
}
