/**
 * Whitespace and trimming as ECMAScript defines them: the characters matched by
 * the regular-expression class `\s` are exactly those `String.prototype.trim`
 * strips (WhiteSpace and LineTerminator, section 12.2 and 12.3 of ECMA-262).
 */
module Text {

  /** A character of the ECMAScript `\s` class. */
  predicate IsWhitespace(c: char) {
    || c == '\t' || c == '\n' || c == '\U{000B}' || c == '\U{000C}' || c == '\r' || c == ' '
    || c == '\U{00A0}' || c == '\U{1680}' || ('\U{2000}' <= c <= '\U{200A}')
    || c == '\U{2028}' || c == '\U{2029}' || c == '\U{202F}' || c == '\U{205F}'
    || c == '\U{3000}' || c == '\U{FEFF}'
  }

  /** Every character of `s` is whitespace (vacuously so for the empty string). */
  predicate IsBlank(s: string) {
    forall i | 0 <= i < |s| :: IsWhitespace(s[i])
  }

  /** The first position at or after `i` that does not hold whitespace, or `|s|`. */
  function SkipWhitespace(s: string, i: nat): (j: nat)
    requires i <= |s|
    ensures i <= j <= |s|
    ensures forall k | i <= k < j :: IsWhitespace(s[k])
    ensures j < |s| ==> !IsWhitespace(s[j])
    decreases |s| - i
  {
    if i < |s| && IsWhitespace(s[i]) then SkipWhitespace(s, i + 1) else i
  }

  /** Going back from `j` but not past `lo`, the end of the last run not ending in whitespace. */
  function BackOverWhitespace(s: string, lo: nat, j: nat): (hi: nat)
    requires lo <= j <= |s|
    ensures lo <= hi <= j
    ensures forall k | hi <= k < j :: IsWhitespace(s[k])
    ensures hi > lo ==> !IsWhitespace(s[hi - 1])
    decreases j
  {
    if j > lo && IsWhitespace(s[j - 1]) then BackOverWhitespace(s, lo, j - 1) else j
  }

  /** Where the trimmed text starts in `s`. */
  function TrimStartIndex(s: string): nat
    ensures TrimStartIndex(s) <= |s|
  {
    SkipWhitespace(s, 0)
  }

  /** Where the trimmed text ends in `s`. */
  function TrimEndIndex(s: string): nat
    ensures TrimStartIndex(s) <= TrimEndIndex(s) <= |s|
  {
    BackOverWhitespace(s, TrimStartIndex(s), |s|)
  }

  /** `String.prototype.trim`: leading and trailing whitespace stripped. */
  function Trim(s: string): string {
    s[TrimStartIndex(s)..TrimEndIndex(s)]
  }

  /**
   * What trimming leaves: a contiguous piece `s[lo..hi]` of the input, with
   * only whitespace cut off on either side, that neither starts nor ends with
   * whitespace.
   */
  lemma TrimIsCore(s: string)
    ensures var lo, hi := TrimStartIndex(s), TrimEndIndex(s);
            && Trim(s) == s[lo..hi]
            && (forall k | 0 <= k < lo :: IsWhitespace(s[k]))
            && (forall k | hi <= k < |s| :: IsWhitespace(s[k]))
    ensures Trim(s) != [] ==> !IsWhitespace(Trim(s)[0]) && !IsWhitespace(Trim(s)[|Trim(s)| - 1])
  {
    var lo, hi := TrimStartIndex(s), TrimEndIndex(s);
    assert Trim(s) != [] ==> Trim(s)[0] == s[lo] && Trim(s)[|Trim(s)| - 1] == s[hi - 1];
  }

  /** Trimming leaves nothing exactly when the string is blank. */
  lemma TrimEmptyIffBlank(s: string)
    ensures Trim(s) == [] <==> IsBlank(s)
  {
    var lo, hi := TrimStartIndex(s), TrimEndIndex(s);
    assert lo < |s| ==> !IsWhitespace(s[lo]);
    assert lo < hi ==> Trim(s) != [];
  }

  /** Trimming twice is trimming once. */
  lemma TrimIdempotent(s: string)
    ensures Trim(Trim(s)) == Trim(s)
  {
    var r := Trim(s);
    TrimIsCore(s);
    if r != [] {
      assert SkipWhitespace(r, 0) == 0;
      assert BackOverWhitespace(r, 0, |r|) == |r|;
    } else {
      assert r[0..0] == r;
    }
  }
}
