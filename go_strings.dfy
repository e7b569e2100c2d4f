/** strings.TrimSpace: strip leading and trailing white space as Go's
    unicode.IsSpace defines it. */
module GoStrings {

  /** unicode.IsSpace: the Latin-1 spaces '\t', '\n', '\v', '\f', '\r', ' ',
      U+0085 and U+00A0, and the other code points with the White_Space property. */
  predicate IsSpace(c: char)
  {
    || c == '\t' || c == '\n' || c == '\U{000B}' || c == '\U{000C}' || c == '\r' || c == ' '
    || c == '\U{0085}' || c == '\U{00A0}'
    || c == '\U{1680}' || ('\U{2000}' <= c <= '\U{200A}')
    || c == '\U{2028}' || c == '\U{2029}' || c == '\U{202F}' || c == '\U{205F}' || c == '\U{3000}'
  }

  predicate AllSpace(s: string) { forall k :: 0 <= k < |s| ==> IsSpace(s[k]) }

  /** The index of the first non-space character, or |s| when there is none:
      TrimSpace's forward scan. */
  function SpaceRun(s: string): (n: nat)
    ensures n <= |s| && AllSpace(s[..n])
    ensures n < |s| ==> !IsSpace(s[n])
  {
    if s != [] && IsSpace(s[0]) then
      var n := 1 + SpaceRun(s[1..]);
      assert s[..n] == [s[0]] + s[1..][..n - 1];
      n
    else 0
  }

  /** The end of the content that starts at `start`: TrimSpace's backward
      scan, which stops at `start` or after the last non-space character. */
  function ContentEnd(s: string, start: nat): (j: nat)
    requires start <= |s|
    ensures start <= j <= |s| && AllSpace(s[j..])
    ensures start < j ==> !IsSpace(s[j - 1])
  {
    if start < |s| && IsSpace(s[|s| - 1]) then
      var j := ContentEnd(s[..|s| - 1], start);
      assert s[j..] == s[..|s| - 1][j..] + [s[|s| - 1]];
      j
    else |s|
  }

  /** strings.TrimSpace: the slice between the two scans. */
  function TrimSpace(s: string): string
  {
    var i := SpaceRun(s);
    s[i..ContentEnd(s, i)]
  }

  /** TrimSpace(s) is the part of s between a white-space prefix and a
      white-space suffix, and it starts where the leading white space ends. */
  lemma TrimSpaceIsInfix(s: string)
    ensures var i, r := SpaceRun(s), TrimSpace(s);
      && i + |r| <= |s| && s[i..i + |r|] == r
      && AllSpace(s[..i]) && AllSpace(s[i + |r|..])
  {
  }

  /** TrimSpace(s) neither starts nor ends with white space. */
  lemma TrimSpaceEnds(s: string)
    ensures var r := TrimSpace(s);
      r == [] || (!IsSpace(r[0]) && !IsSpace(r[|r| - 1]))
  {
    var i := SpaceRun(s);
    var r := TrimSpace(s);
    if r != [] {
      assert r[0] == s[i];
    }
  }

  /** The trimmed id is empty exactly when the raw id is all white space;
      this is the "deviceId required" test of the trimming handlers. */
  lemma TrimSpaceEmptyIff(s: string)
    ensures TrimSpace(s) == [] <==> AllSpace(s)
  {
    var i := SpaceRun(s);
    var j := ContentEnd(s, i);
    if TrimSpace(s) == [] {
      assert j == i;
      assert s == s[..i] + s[i..];
    }
  }

  /** Trimming twice is trimming once. */
  lemma TrimSpaceIdempotent(s: string)
    ensures TrimSpace(TrimSpace(s)) == TrimSpace(s)
  {
    var r := TrimSpace(s);
    TrimSpaceEnds(s);
    assert SpaceRun(r) == 0;
    assert r[0..|r|] == r;
  }
}
