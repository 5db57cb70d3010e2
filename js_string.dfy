/**
 * The two JavaScript string operations the text field relies on:
 * `String.prototype.trim` and the regular-expression replacement
 * `replace(/\n$/, "")`.
 */
module JsString {

  /**
   * ECMAScript's WhiteSpace and LineTerminator characters, the set that `trim`
   * removes: TAB, LF, VT, FF, CR (U+0009 to U+000D), the space separators of
   * category Zs, NBSP, ZWNBSP (U+FEFF), LS and PS (U+2028, U+2029).
   */
  predicate IsWhitespace(c: char) {
    ('\t' <= c <= '\r') || c == ' ' || c == '\U{00A0}' || c == '\U{1680}'
    || ('\U{2000}' <= c <= '\U{200A}') || ('\U{2028}' <= c <= '\U{2029}')
    || c == '\U{202F}' || c == '\U{205F}' || c == '\U{3000}' || c == '\U{FEFF}'
  }

  /** Reference definition: every character of `s` is whitespace (vacuously so for ""). */
  ghost predicate Blank(s: string) {
    forall k :: 0 <= k < |s| ==> IsWhitespace(s[k])
  }

  /** The index of the first non-whitespace character at or after `i`, or `|s|` when there is none. */
  function ContentStart(s: string, i: nat): (r: nat)
    requires i <= |s|
    ensures i <= r <= |s|
    ensures forall k :: i <= k < r ==> IsWhitespace(s[k])
    ensures r < |s| ==> !IsWhitespace(s[r])
    decreases |s| - i
  {
    if i < |s| && IsWhitespace(s[i]) then ContentStart(s, i + 1) else i
  }

  /** Scanning down from `j` to `lo`: the end of the last non-whitespace character, or `lo` when there is none. */
  function ContentEnd(s: string, lo: nat, j: nat): (r: nat)
    requires lo <= j <= |s|
    ensures lo <= r <= j
    ensures forall k :: r <= k < j ==> IsWhitespace(s[k])
    ensures r > lo ==> !IsWhitespace(s[r - 1])
  {
    if lo < j && IsWhitespace(s[j - 1]) then ContentEnd(s, lo, j - 1) else j
  }

  /**
   * `s.trim()`: the piece of `s` between its leading and its trailing run of
   * whitespace, which has no whitespace at either end.
   */
  function Trim(s: string): (r: string)
    ensures |r| <= |s|
    ensures r == [] || (!IsWhitespace(r[0]) && !IsWhitespace(r[|r| - 1]))
  {
    var i := ContentStart(s, 0);
    var j := ContentEnd(s, i, |s|);
    s[i..j]
  }

  /** `s.trim()` is the piece of `s` left once its leading and its trailing whitespace are cut off. */
  lemma TrimIsInfix(s: string)
    ensures exists i, j :: 0 <= i <= j <= |s| && Trim(s) == s[i..j] && Blank(s[..i]) && Blank(s[j..])
  {
    var i := ContentStart(s, 0);
    var j := ContentEnd(s, i, |s|);
    assert Blank(s[..i]);
    assert Blank(s[j..]);
  }

  /** `s.trim()` is the empty string exactly when `s` consists of whitespace only. */
  lemma TrimEmptyIffBlank(s: string)
    ensures Trim(s) == [] <==> Blank(s)
  {
  }

  /** True of a string whose last character is a line feed. */
  predicate EndsWithNewline(s: string) {
    s != [] && s[|s| - 1] == '\n'
  }

  /** `s.replace(/\n$/, "")`: without the `m` flag `$` matches only at the very end, and without `g` one match is replaced. */
  function StripTrailingNewline(s: string): (r: string)
    ensures EndsWithNewline(s) ==> r + "\n" == s
    ensures !EndsWithNewline(s) ==> r == s
  {
    if EndsWithNewline(s) then s[..|s| - 1] else s
  }

  /** Typing a line break at the end is undone by the strip, and exactly one line break is removed. */
  lemma StripUndoesOneNewline(t: string)
    ensures StripTrailingNewline(t + "\n") == t
    ensures StripTrailingNewline(t + "\n\n") == t + "\n"
  {
  }
}
