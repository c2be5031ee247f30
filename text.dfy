/** The blank-input guard of the send path: JavaScript's String.prototype.trim
    and the falsy test on its result. */
module Text {

  /** The ECMAScript WhiteSpace and LineTerminator code points, which are
      exactly the characters trim removes from both ends of a string. All of
      them lie in the Basic Multilingual Plane, and none is a letter or digit. */
  predicate IsTrimmable(c: char)
    ensures IsTrimmable(c) ==> c <= '\U{FFFF}'
    ensures IsTrimmable(c) ==> !('0' <= c <= '9' || 'A' <= c <= 'Z' || 'a' <= c <= 'z')
  {
    || c == '\t' || c == '\n' || c == '\U{B}' || c == '\U{C}' || c == '\r' || c == ' '
    || c == '\U{A0}' || c == '\U{1680}' || ('\U{2000}' <= c <= '\U{200A}')
    || c == '\U{2028}' || c == '\U{2029}' || c == '\U{202F}' || c == '\U{205F}'
    || c == '\U{3000}' || c == '\U{FEFF}'
  }

  /** Every character of s at a position in [lo, hi) is trimmable. */
  ghost predicate BlankBetween(s: string, lo: nat, hi: nat)
    requires lo <= hi <= |s|
  {
    forall m :: lo <= m < hi ==> IsTrimmable(s[m])
  }

  /** True when every character of s would be removed by trim. */
  ghost predicate AllTrimmable(s: string) {
    BlankBetween(s, 0, |s|)
  }

  /** The position of the first character at or after `from` that trim
      keeps, or |s| when there is none. */
  function SkipLeading(s: string, from: nat): (i: nat)
    requires from <= |s|
    ensures from <= i <= |s|
    ensures i < |s| ==> !IsTrimmable(s[i])
    ensures BlankBetween(s, from, i)
    decreases |s| - from
  {
    if from < |s| && IsTrimmable(s[from]) then SkipLeading(s, from + 1) else from
  }

  /** One past the last character before `to` that trim keeps, or 0 when
      there is none. */
  function SkipTrailing(s: string, to: nat): (j: nat)
    requires to <= |s|
    ensures j <= to
    ensures j > 0 ==> !IsTrimmable(s[j - 1])
    ensures BlankBetween(s, j, to)
  {
    if to > 0 && IsTrimmable(s[to - 1]) then SkipTrailing(s, to - 1) else to
  }

  /** String.prototype.trim: the leading and the trailing run of trimmable
      characters removed, so none is left at either end. */
  function Trim(s: string): (r: string)
    ensures |r| <= |s|
    ensures r != [] ==> !IsTrimmable(r[0]) && !IsTrimmable(r[|r| - 1])
  {
    var i, j := SkipLeading(s, 0), SkipTrailing(s, |s|);
    if i < j then s[i..j] else []
  }

  /** Trim removes exactly the maximal runs of trimmable characters at the
      two ends: whenever s[a..b] starts and ends with a kept character and
      everything outside it is trimmable, trim returns s[a..b]. */
  lemma TrimIsInfix(s: string, a: nat, b: nat)
    requires a < b <= |s|
    requires BlankBetween(s, 0, a) && BlankBetween(s, b, |s|)
    requires !IsTrimmable(s[a]) && !IsTrimmable(s[b - 1])
    ensures Trim(s) == s[a..b]
  {
    var i, j := SkipLeading(s, 0), SkipTrailing(s, |s|);
    assert i == a && j == b;
  }

  /** The blank-input guard after trim: the input is rejected exactly when it
      consists of trimmable characters only (the empty input included). */
  lemma BlankIffAllTrimmable(s: string)
    ensures Trim(s) == [] <==> AllTrimmable(s)
  {
    var i, j := SkipLeading(s, 0), SkipTrailing(s, |s|);
    if i >= j {
      forall m | 0 <= m < |s| ensures IsTrimmable(s[m]) {
        assert m < i || j <= m;
      }
    } else {
      assert !IsTrimmable(s[i]);
    }
  }

  /** Trimming twice changes nothing: what trim returns has no trimmable
      character at either end. */
  lemma TrimIdempotent(s: string)
    ensures Trim(Trim(s)) == Trim(s)
  {
    var r := Trim(s);
    if r != [] {
      TrimIsInfix(r, 0, |r|);
      assert r[0..|r|] == r;
    }
  }
}
