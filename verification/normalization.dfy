/**
  Normalisation of the input word, `word.lower().strip()` in app.py:36.

  Python's `str.lower` is modelled for the capitals of French: ASCII
  `A`..`Z` and the Latin-1 capitals U+00C0..U+00DE (all except the
  multiplication sign U+00D7), which Python maps to the character 0x20
  above, and the ligature `Œ` (U+0152) and `Ÿ` (U+0178), which it maps to
  `œ` (U+0153) and `ÿ` (U+00FF). `str.strip()` with no argument removes, at both
  ends, the characters for which `str.isspace()` holds; that set is given
  exactly by `IsSpace`.
*/
module Normalization {

  /** The characters Python's `str.isspace()` accepts. */
  predicate IsSpace(c: char) {
    || ('\t' <= c <= '\r')
    || ('\U{1C}' <= c <= ' ')
    || c == '\U{85}' || c == '\U{A0}' || c == '\U{1680}'
    || ('\U{2000}' <= c <= '\U{200A}')
    || c == '\U{2028}' || c == '\U{2029}' || c == '\U{202F}' || c == '\U{205F}'
    || c == '\U{3000}'
  }

  /** The upper-case letters whose lower-case form the model knows. */
  predicate IsUpper(c: char) {
    || ('A' <= c <= 'Z') || ('\U{C0}' <= c <= '\U{DE}' && c != '\U{D7}')
    || c == '\U{152}' || c == '\U{178}'
  }

  /** The small letters of the capitals `IsUpper` accepts. */
  predicate IsLower(c: char) {
    || ('a' <= c <= 'z') || ('\U{E0}' <= c <= '\U{FE}' && c != '\U{F7}')
    || c == '\U{153}' || c == '\U{FF}'
  }

  /** `c.upper()` on the small letters of `IsLower`; every other character is left alone. */
  function UpperChar(c: char): char {
    if c == '\U{153}' then '\U{152}'
    else if c == '\U{FF}' then '\U{178}'
    else if IsLower(c) then (c as int - 32) as char
    else c
  }

  /** Lower-cases one character: a capital becomes the small letter whose capital it is; every other character is left alone. */
  function LowerChar(c: char): (r: char)
    ensures !IsUpper(r)
    ensures !IsUpper(c) ==> r == c
    ensures IsUpper(c) ==> IsLower(r) && UpperChar(r) == c
    ensures IsSpace(r) <==> IsSpace(c)
  {
    if c == '\U{152}' then '\U{153}'
    else if c == '\U{178}' then '\U{FF}'
    else if IsUpper(c) then (c as int + 32) as char
    else c
  }

  /** `s.lower()`: the same characters, each lower-cased in place. */
  function Lower(s: string): (r: string)
    ensures |r| == |s|
    ensures forall i :: 0 <= i < |s| && !IsUpper(s[i]) ==> r[i] == s[i]
    ensures forall i :: 0 <= i < |s| && IsUpper(s[i]) ==> IsLower(r[i]) && UpperChar(r[i]) == s[i]
    ensures forall i :: 0 <= i < |r| ==> !IsUpper(r[i])
    ensures forall i :: 0 <= i < |s| ==> (IsSpace(r[i]) <==> IsSpace(s[i]))
    ensures (forall i :: 0 <= i < |s| ==> !IsUpper(s[i])) ==> r == s
  {
    seq(|s|, i requires 0 <= i < |s| => LowerChar(s[i]))
  }

  /** The index of the first character at or after `i` that is not white space, or `|s|`. */
  function SkipSpaces(s: string, i: nat): (n: nat)
    requires i <= |s|
    ensures i <= n <= |s|
    ensures forall k :: i <= k < n ==> IsSpace(s[k])
    ensures n == |s| || !IsSpace(s[n])
    decreases |s| - i
  {
    if i < |s| && IsSpace(s[i]) then SkipSpaces(s, i + 1) else i
  }

  /** The index just after the last character before `j`, and at or after `lo`, that is not white space, or `lo`. */
  function SkipSpacesBack(s: string, lo: nat, j: nat): (n: nat)
    requires lo <= j <= |s|
    ensures lo <= n <= j
    ensures forall k :: n <= k < j ==> IsSpace(s[k])
    ensures n == lo || !IsSpace(s[n - 1])
    decreases j
  {
    if j > lo && IsSpace(s[j - 1]) then SkipSpacesBack(s, lo, j - 1) else j
  }

  /** Neither end of `s` is white space. */
  predicate Trimmed(s: string) {
    s == [] || (!IsSpace(s[0]) && !IsSpace(s[|s| - 1]))
  }

  /** `r` is the slice of `s` starting at `i`, and everything around it is white space. */
  predicate StrippedAt(s: string, i: int, r: string) {
    && 0 <= i <= |s| - |r|
    && r == s[i..i + |r|]
    && (forall k :: 0 <= k < i ==> IsSpace(s[k]))
    && (forall k :: i + |r| <= k < |s| ==> IsSpace(s[k]))
  }

  /**
    `s.strip()`: `lstrip` skips the leading white space, `rstrip` the
    trailing white space of what is left; the result is the slice between.
  */
  function Strip(s: string): (r: string)
    ensures Trimmed(r)
    ensures StrippedAt(s, SkipSpaces(s, 0), r)
    ensures Trimmed(s) ==> r == s
  {
    var lo := SkipSpaces(s, 0);
    s[lo..SkipSpacesBack(s, lo, |s|)]
  }

  /** A word already in the form that `Normalize` produces. */
  predicate IsNormal(s: string) {
    Trimmed(s) && forall i :: 0 <= i < |s| ==> !IsUpper(s[i])
  }

  /** `word.lower().strip()` (app.py:36). */
  function Normalize(word: string): (r: string)
    ensures StrippedAt(Lower(word), SkipSpaces(Lower(word), 0), r)
    ensures IsNormal(r)
    ensures |r| <= |word|
    ensures IsNormal(word) ==> r == word
  {
    var l := Lower(word);
    StrippedSliceKeepsCase(l, SkipSpaces(l, 0), Strip(l));
    Strip(l)
  }

  /** A slice stripped out of a string without upper-case letters has none either. */
  lemma StrippedSliceKeepsCase(s: string, i: int, r: string)
    requires forall k :: 0 <= k < |s| ==> !IsUpper(s[k])
    requires StrippedAt(s, i, r)
    ensures |r| <= |s|
    ensures forall k :: 0 <= k < |r| ==> !IsUpper(r[k])
  {
    assert forall k :: 0 <= k < |r| ==> r[k] == s[i + k];
  }

  /** Normalising twice is the same as normalising once. */
  lemma NormalizeIdempotent(word: string)
    ensures Normalize(Normalize(word)) == Normalize(word)
  {
  }
}
