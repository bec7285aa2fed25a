/** Python's `str.strip()` called with no argument, over Dafny strings.

    `strip()` removes, from both ends of a string, every character for which
    `str.isspace()` holds; the characters between the first and the last
    non-whitespace character are returned unchanged. */
module PyString {

  /** The characters CPython treats as whitespace (`Py_UNICODE_ISSPACE`):
      tab, line feed, vertical tab, form feed, carriage return, the four
      information separators U+001C..U+001F, space, U+0085, U+00A0, U+1680,
      U+2000..U+200A, U+2028, U+2029, U+202F, U+205F and U+3000. */
  predicate IsSpace(c: char) {
    || ('\t' <= c <= '\r')
    || ('\U{1C}' <= c <= '\U{1F}')
    || c == ' '
    || c == '\U{85}'
    || c == '\U{A0}'
    || c == '\U{1680}'
    || ('\U{2000}' <= c <= '\U{200A}')
    || c == '\U{2028}'
    || c == '\U{2029}'
    || c == '\U{202F}'
    || c == '\U{205F}'
    || c == '\U{3000}'
  }

  /** Every character of `s` is whitespace (this includes the empty string). */
  predicate AllSpace(s: string) {
    forall k :: 0 <= k < |s| ==> IsSpace(s[k])
  }

  /** `s` is empty or begins and ends with a non-whitespace character. */
  predicate IsTrimmed(s: string) {
    s == [] || (!IsSpace(s[0]) && !IsSpace(s[|s| - 1]))
  }

  /** Number of whitespace characters at the front of `s`: the position of the
      first non-whitespace character, or `|s|` when there is none. */
  function LeadingSpace(s: string): (n: nat)
    ensures n <= |s|
    ensures AllSpace(s[..n])
    ensures n < |s| ==> !IsSpace(s[n])
  {
    if |s| > 0 && IsSpace(s[0]) then 1 + LeadingSpace(s[1..]) else 0
  }

  /** Number of whitespace characters at the back of `s`. */
  function TrailingSpace(s: string): (n: nat)
    ensures n <= |s|
    ensures AllSpace(s[|s| - n..])
    ensures n < |s| ==> !IsSpace(s[|s| - 1 - n])
  {
    if |s| > 0 && IsSpace(s[|s| - 1]) then 1 + TrailingSpace(s[..|s| - 1]) else 0
  }

  /** Reference definition of stripping: `r` is the slice `s[i..j]` of `s`,
      everything cut off on either side is whitespace, and `r` itself neither
      starts nor ends with whitespace. */
  ghost predicate IsStripOf(s: string, r: string) {
    exists i, j :: 0 <= i <= j <= |s| && r == s[i..j]
      && AllSpace(s[..i]) && AllSpace(s[j..]) && IsTrimmed(r)
  }

  /** `s.strip()`. */
  function Strip(s: string): (r: string)
    ensures IsTrimmed(r)
    ensures IsStripOf(s, r)
    ensures |r| <= |s|
  {
    var i := LeadingSpace(s);
    if i == |s| then
      assert s[..i] == s;
      assert s[i..i] == [] && s[i..] == [];
      []
    else
      var j := |s| - TrailingSpace(s);
      var r := s[i..j];
      assert r[0] == s[i] && r[|r| - 1] == s[j - 1];
      r
  }

  lemma AllSpaceSplit(s: string, k: nat)
    requires k <= |s|
    ensures AllSpace(s) <==> AllSpace(s[..k]) && AllSpace(s[k..])
  {
    assert s == s[..k] + s[k..];
    if AllSpace(s[..k]) && AllSpace(s[k..]) {
      forall m | 0 <= m < |s| ensures IsSpace(s[m]) {
        if m < k { assert s[m] == s[..k][m]; } else { assert s[m] == s[k..][m - k]; }
      }
    }
  }

  /** A non-whitespace character preceded only by whitespace is where the
      leading whitespace ends. */
  lemma LeadingSpaceAt(s: string, i: nat)
    requires i < |s| && AllSpace(s[..i]) && !IsSpace(s[i])
    ensures LeadingSpace(s) == i
  {
  }

  /** A non-whitespace character followed only by whitespace is where the
      trailing whitespace starts. */
  lemma TrailingSpaceAt(s: string, j: nat)
    requires 0 < j <= |s| && AllSpace(s[j..]) && !IsSpace(s[j - 1])
    ensures TrailingSpace(s) == |s| - j
  {
  }

  /** A string of whitespace alone is all leading whitespace. */
  lemma LeadingSpaceAll(s: string)
    requires AllSpace(s)
    ensures LeadingSpace(s) == |s|
  {
  }

  /** The reference definition pins the result down: whatever satisfies
      `IsStripOf(s, r)` is exactly what `Strip` returns. */
  lemma StripUnique(s: string, r: string)
    requires IsStripOf(s, r)
    ensures r == Strip(s)
  {
    var i, j :| 0 <= i <= j <= |s| && r == s[i..j]
      && AllSpace(s[..i]) && AllSpace(s[j..]) && IsTrimmed(r);
    if r == [] {
      assert s[..j] == s[..i];
      AllSpaceSplit(s, j);
      LeadingSpaceAll(s);
    } else {
      assert r[0] == s[i] && r[|r| - 1] == s[j - 1];
      LeadingSpaceAt(s, i);
      TrailingSpaceAt(s, j);
    }
  }

  /** Alternative characterisation: the result of `strip()` is empty exactly
      when the input consists of whitespace alone. */
  lemma StripEmptyIff(s: string)
    ensures Strip(s) == [] <==> AllSpace(s)
  {
    if AllSpace(s) {
      LeadingSpaceAll(s);
    }
  }

  /** Stripping twice is stripping once. */
  lemma StripIdempotent(s: string)
    ensures Strip(Strip(s)) == Strip(s)
  {
    var r := Strip(s);
    assert r[..0] == [] && r[|r|..] == [] && r[0..|r|] == r;
    assert IsStripOf(r, r);
    StripUnique(r, r);
  }
}
