/** The JavaScript string built-ins that the git-init tool relies on:
    `String.prototype.trim`, `toLowerCase` (restricted to ASCII letters)
    and `includes`. */
module Text {

  /** The code points `trim` removes: the ECMAScript WhiteSpace code points
      (tab, vertical tab, form feed, space, no-break space, byte order mark
      and the other space separators) and the LineTerminator code points. */
  predicate IsWhiteSpace(c: char) {
    c == '\t' || c == '\n' || c == '\U{B}' || c == '\U{C}' || c == '\r' || c == ' '
    || c == '\U{A0}' || c == '\U{1680}' || ('\U{2000}' <= c <= '\U{200A}')
    || c == '\U{2028}' || c == '\U{2029}' || c == '\U{202F}' || c == '\U{205F}'
    || c == '\U{3000}' || c == '\U{FEFF}'
  }

  /** The number of white-space characters at the start of `s`. */
  function LeadingSpace(s: string): (n: nat)
    ensures n <= |s|
    ensures forall k :: 0 <= k < n ==> IsWhiteSpace(s[k])
    ensures n < |s| ==> !IsWhiteSpace(s[n])
  {
    if s == [] || !IsWhiteSpace(s[0]) then 0 else 1 + LeadingSpace(s[1..])
  }

  /** The number of white-space characters at the end of `s`. */
  function TrailingSpace(s: string): (n: nat)
    ensures n <= |s|
    ensures forall k :: |s| - n <= k < |s| ==> IsWhiteSpace(s[k])
    ensures n < |s| ==> !IsWhiteSpace(s[|s| - 1 - n])
  {
    if s == [] || !IsWhiteSpace(s[|s| - 1]) then 0 else 1 + TrailingSpace(s[..|s| - 1])
  }

  /** `s.trim()`: `s` without its leading and trailing white space. The
      result is the slice of `s` that starts at its first non-white-space
      character and ends at its last one; it is empty exactly when `s` holds
      only white space. */
  function Trim(s: string): (r: string)
    ensures LeadingSpace(s) + |r| <= |s|
    ensures r == s[LeadingSpace(s)..LeadingSpace(s) + |r|]
    ensures forall k :: LeadingSpace(s) + |r| <= k < |s| ==> IsWhiteSpace(s[k])
    ensures r == [] <==> forall k :: 0 <= k < |s| ==> IsWhiteSpace(s[k])
    ensures r != [] ==> !IsWhiteSpace(r[0]) && !IsWhiteSpace(r[|r| - 1])
  {
    var lead := LeadingSpace(s);
    if lead == |s| then []
    else
      var trail := TrailingSpace(s);
      assert lead < |s| - trail by {
        assert !IsWhiteSpace(s[lead]);
      }
      s[lead..|s| - trail]
  }

  /** ASCII lower-casing of one character; every other character is kept. */
  function LowerChar(c: char): char {
    if 'A' <= c <= 'Z' then (c as int + 32) as char else c
  }

  /** `s.toLowerCase()` restricted to ASCII letters. */
  function Lower(s: string): (r: string)
    ensures |r| == |s|
    ensures forall k :: 0 <= k < |s| ==> r[k] == LowerChar(s[k])
  {
    if s == [] then [] else [LowerChar(s[0])] + Lower(s[1..])
  }

  /** `pat` occurs in `text` starting at index `i`. */
  predicate OccursAt(text: string, pat: string, i: nat) {
    i + |pat| <= |text| && text[i..i + |pat|] == pat
  }

  /** `text.includes(pat)`: true exactly when `pat` occurs somewhere in `text`. */
  function Contains(text: string, pat: string): (b: bool)
    ensures b <==> exists i: nat :: OccursAt(text, pat, i)
    decreases |text|
  {
    if |text| < |pat| then
      assert forall i: nat :: !OccursAt(text, pat, i);
      false
    else if text[..|pat|] == pat then
      assert OccursAt(text, pat, 0);
      true
    else
      OccursAtShift(text, pat);
      Contains(text[1..], pat)
  }

  /** Occurrences of `pat` in `text` past index 0 are the occurrences in `text[1..]`, shifted. */
  lemma OccursAtShift(text: string, pat: string)
    requires text != [] && !OccursAt(text, pat, 0)
    ensures (exists i: nat :: OccursAt(text, pat, i)) <==> (exists i: nat :: OccursAt(text[1..], pat, i))
  {
    forall i: nat | OccursAt(text, pat, i) ensures OccursAt(text[1..], pat, i - 1) {
      assert i > 0;
      assert text[1..][i - 1..i - 1 + |pat|] == text[i..i + |pat|];
    }
    forall i: nat | OccursAt(text[1..], pat, i) ensures OccursAt(text, pat, i + 1) {
      assert text[1..][i..i + |pat|] == text[i + 1..i + 1 + |pat|];
    }
  }

  /** `s` begins with `pre`. */
  predicate StartsWith(s: string, pre: string) {
    |pre| <= |s| && s[..|pre|] == pre
  }

  /** `s` ends with `suf`. */
  predicate EndsWith(s: string, suf: string) {
    |suf| <= |s| && s[|s| - |suf|..] == suf
  }

  /** A concatenation starts with its first part, and dropping that part leaves the second. */
  lemma StartsWithAppend(pre: string, s: string)
    ensures StartsWith(pre + s, pre) && (pre + s)[|pre|..] == s
  {
    assert (pre + s)[..|pre|] == pre;
  }

  /** A string that differs from `pre` at some index of both does not start with `pre`. */
  lemma DiffersAt(s: string, pre: string, j: nat)
    requires j < |s| && j < |pre| && s[j] != pre[j]
    ensures !StartsWith(s, pre)
  {
    assert |pre| <= |s| ==> s[..|pre|][j] == s[j];
  }

  /** Concatenation is associative. */
  lemma AppendAssoc(a: string, b: string, c: string)
    ensures (a + b) + c == a + (b + c)
  {
  }
}
