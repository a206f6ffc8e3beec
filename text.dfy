/**
 * The .NET string helpers the ingestion pipeline relies on: `char.IsWhiteSpace`,
 * `string.IsNullOrWhiteSpace`, `string.Trim`, `string.Join` and LINQ's `Take`.
 */
module Text {
  import opened Wrappers

  /** `char.IsWhiteSpace`: the Unicode space separators, line and paragraph
      separators, U+0009..U+000D, U+0085 and U+00A0. */
  predicate IsWhiteSpace(c: char)
  {
    || ('\U{0009}' <= c <= '\U{000D}')
    || c == ' ' || c == '\U{0085}' || c == '\U{00A0}' || c == '\U{1680}'
    || ('\U{2000}' <= c <= '\U{200A}')
    || c == '\U{2028}' || c == '\U{2029}' || c == '\U{202F}' || c == '\U{205F}' || c == '\U{3000}'
  }

  /** Every character of `s` is white space (true of the empty string). */
  predicate AllWhiteSpace(s: string)
  {
    forall i :: 0 <= i < |s| ==> IsWhiteSpace(s[i])
  }

  /** White space after a first white-space character. */
  lemma WhiteSpaceCons(s: string)
    requires |s| > 0 && IsWhiteSpace(s[0]) && AllWhiteSpace(s[1..])
    ensures AllWhiteSpace(s)
  {
    assert forall i :: 1 <= i < |s| ==> s[i] == s[1..][i - 1];
  }

  /** White space before a last white-space character. */
  lemma WhiteSpaceSnoc(s: string)
    requires |s| > 0 && IsWhiteSpace(s[|s| - 1]) && AllWhiteSpace(s[..|s| - 1])
    ensures AllWhiteSpace(s)
  {
    assert forall i :: 0 <= i < |s| - 1 ==> s[i] == s[..|s| - 1][i];
  }

  /** `string.IsNullOrWhiteSpace` on a nullable string. */
  predicate IsBlank(s: Option<string>)
  {
    s.None? || AllWhiteSpace(s.value)
  }

  /** `string.Length`: the number of UTF-16 code units, so a character outside the
      Basic Multilingual Plane (a surrogate pair) counts twice. */
  function Utf16Length(s: string): (n: nat)
    ensures |s| <= n <= 2 * |s|
  {
    if s == [] then 0
    else Utf16Length(s[..|s| - 1]) + (if s[|s| - 1] as int >= 0x1_0000 then 2 else 1)
  }

  /** On text inside the Basic Multilingual Plane, `Length` counts characters. */
  lemma {:induction false} Utf16LengthBmp(s: string)
    requires forall i :: 0 <= i < |s| ==> s[i] as int < 0x1_0000
    ensures Utf16Length(s) == |s|
  {
    if s != [] {
      Utf16LengthBmp(s[..|s| - 1]);
    }
  }

  /** `string.TrimStart()`: drops the leading white space. */
  function TrimStart(s: string): (r: string)
    ensures |r| <= |s| && r == s[|s| - |r|..]
    ensures AllWhiteSpace(s[..|s| - |r|])
    ensures r == [] || !IsWhiteSpace(r[0])
  {
    if s == [] || !IsWhiteSpace(s[0]) then s
    else
      var r := TrimStart(s[1..]);
      var k := |s| - |r|;
      assert s[1..][..k - 1] == s[1..k];
      WhiteSpaceCons(s[..k]);
      r
  }

  /** `string.TrimEnd()`: drops the trailing white space. */
  function TrimEnd(s: string): (r: string)
    ensures |r| <= |s| && r == s[..|r|]
    ensures AllWhiteSpace(s[|r|..])
    ensures r == [] || !IsWhiteSpace(r[|r| - 1])
  {
    if s == [] || !IsWhiteSpace(s[|s| - 1]) then s
    else
      var r := TrimEnd(s[..|s| - 1]);
      assert s[..|s| - 1][|r|..] == s[|r|..|s| - 1] == s[|r|..][..|s| - 1 - |r|];
      WhiteSpaceSnoc(s[|r|..]);
      r
  }

  /** `string.Trim()`: drops leading and trailing white space. */
  function Trim(s: string): string
  {
    TrimEnd(TrimStart(s))
  }

  /** A string that `Trim` leaves unchanged: empty, or no white space at either end. */
  predicate IsTrimmed(s: string)
  {
    s == [] || (!IsWhiteSpace(s[0]) && !IsWhiteSpace(s[|s| - 1]))
  }

  /** `Trim` removes white space only, and only at the two ends, and leaves a trimmed string. */
  lemma TrimRemovesOuterWhiteSpace(s: string)
    ensures exists a, b :: 0 <= a <= b <= |s| && Trim(s) == s[a..b] && AllWhiteSpace(s[..a]) && AllWhiteSpace(s[b..])
    ensures IsTrimmed(Trim(s))
  {
    var a, b := TrimBounds(s);
    var t := TrimStart(s);
    var r := TrimEnd(t);
    if r != [] {
      assert r[0] == t[0];
    }
  }

  /** Where the text `Trim` keeps starts and ends. */
  lemma TrimBounds(s: string) returns (a: nat, b: nat)
    ensures a <= b <= |s| && Trim(s) == s[a..b] && AllWhiteSpace(s[..a]) && AllWhiteSpace(s[b..])
  {
    var t := TrimStart(s);
    var r := TrimEnd(t);
    a := |s| - |t|;
    b := a + |r|;
    assert t == s[a..];
    assert r == t[..|r|] == s[a..b];
    assert s[b..] == t[|r|..];
  }

  /** `Trim` is the identity exactly on trimmed strings. */
  lemma {:induction false} TrimFixedIff(s: string)
    ensures Trim(s) == s <==> IsTrimmed(s)
  {
    if IsTrimmed(s) {
      assert TrimStart(s) == s;
      assert TrimEnd(s) == s;
    }
  }

  /** `string.Join(sep, xs)`: the items separated by `sep`. */
  function Join(sep: string, xs: seq<string>): (r: string)
    ensures xs == [] ==> r == []
    ensures |xs| == 1 ==> r == xs[0]
  {
    if xs == [] then []
    else if |xs| == 1 then xs[0]
    else xs[0] + sep + Join(sep, xs[1..])
  }

  /** LINQ `Take(n)`: the first `n` items, or all of them when there are fewer. */
  function Take<T>(xs: seq<T>, n: nat): (r: seq<T>)
    ensures |r| == if |xs| < n then |xs| else n
    ensures r == xs[..|r|]
  {
    if |xs| <= n then xs else xs[..n]
  }
}
