/** The few .NET string primitives the downloader relies on, with ordinal comparison. */
module Strings {

  /** `p` occurs in `s` starting at index `i`. */
  predicate OccursAt(s: string, p: string, i: int)
  {
    0 <= i && i + |p| <= |s| && s[i..i + |p|] == p
  }

  /** First index at or after `k` where `p` occurs in `s`, or -1. */
  function IndexFrom(s: string, p: string, k: nat): (r: int)
    requires k <= |s|
    ensures r == -1 || (k <= r && OccursAt(s, p, r))
    ensures forall j {:trigger OccursAt(s, p, j)} :: k <= j && (r == -1 || j < r) ==> !OccursAt(s, p, j)
    decreases |s| - k
  {
    if k + |p| > |s| then -1
    else if s[k..k + |p|] == p then k
    else IndexFrom(s, p, k + 1)
  }

  /** `String.IndexOf(p, StringComparison.Ordinal)`: the first occurrence of `p`, or -1; 0 for an empty `p`. */
  function IndexOf(s: string, p: string): (r: int)
    ensures r == -1 || OccursAt(s, p, r)
    ensures forall j {:trigger OccursAt(s, p, j)} :: (r == -1 || j < r) ==> !OccursAt(s, p, j)
  {
    IndexFrom(s, p, 0)
  }

  /** `String.Contains(p)`, which compares ordinally. */
  predicate Contains(s: string, p: string)
  {
    IndexOf(s, p) >= 0
  }

  /** `Char.IsWhiteSpace`: the Unicode space, line and paragraph separators, U+0009 to U+000D and U+0085. */
  predicate IsWhiteSpace(c: char)
  {
    || '\t' <= c <= '\r'
    || c == ' ' || c == '\U{0085}' || c == '\U{00A0}' || c == '\U{1680}'
    || '\U{2000}' <= c <= '\U{200A}'
    || c == '\U{2028}' || c == '\U{2029}' || c == '\U{202F}' || c == '\U{205F}' || c == '\U{3000}'
  }

  /** `String.IsNullOrWhiteSpace` for a non-null string. */
  predicate IsNullOrWhiteSpace(s: string)
  {
    forall i :: 0 <= i < |s| ==> IsWhiteSpace(s[i])
  }

  /** Cutting after an occurrence of `p` gives a prefix of `s` that ends with `p`. */
  lemma CutAfter(s: string, p: string, i: int)
    requires OccursAt(s, p, i)
    ensures var r := s[..i] + p;
            && r == s[..i + |p|] && r <= s && |r| == i + |p| && r[i..] == p
  {
    assert s[..i] + s[i..i + |p|] == s[..i + |p|];
  }

  /** The empty string occurs at the start of every string, so its first index is 0. */
  lemma EmptyAtStart(s: string)
    ensures IndexOf(s, "") == 0
  {
    assert OccursAt(s, "", 0);
  }

  /** An occurrence that fits inside a prefix is an occurrence in the prefix. */
  lemma OccursInPrefix(s: string, t: string, p: string, j: int)
    requires t <= s && 0 <= j && j + |p| <= |t|
    ensures OccursAt(t, p, j) == OccursAt(s, p, j)
  {
    assert t[j..j + |p|] == s[j..j + |p|];
  }

  /** Cutting a string after the first occurrence of `p` does not move that occurrence. */
  lemma IndexOfInPrefix(s: string, t: string, p: string)
    requires t <= s && IndexOf(s, p) >= 0 && IndexOf(s, p) + |p| <= |t|
    ensures IndexOf(t, p) == IndexOf(s, p)
  {
    var i := IndexOf(s, p);
    OccursInPrefix(s, t, p, i);
    var r := IndexOf(t, p);
    assert r != -1 && r <= i;
    OccursInPrefix(s, t, p, r);
  }

  /** A prefix of a string that lacks `p` lacks `p`. */
  lemma NotContainsPrefix(s: string, t: string, p: string)
    requires t <= s && !Contains(s, p)
    ensures !Contains(t, p)
  {
    var r := IndexOf(t, p);
    if r >= 0 {
      OccursInPrefix(s, t, p, r);
    }
  }

  /** A string that contains `p` and `p` starts with a non-space character is not blank. */
  lemma ContainsNotBlank(s: string, p: string)
    requires Contains(s, p) && |p| > 0 && !IsWhiteSpace(p[0])
    ensures !IsNullOrWhiteSpace(s)
  {
    var i := IndexOf(s, p);
    assert s[i] == s[i..i + |p|][0];
  }
}
