/**
 * Characters and strings as JavaScript sees them: the white-space set that
 * `String.prototype.trim`, the regular-expression class `\s` and `parseFloat`
 * skip, the line terminators that the regular-expression `.` refuses, ASCII
 * lower-casing and substring search.
 */
module Text {

  /** LF, CR, LINE SEPARATOR and PARAGRAPH SEPARATOR: the characters `.` does not match. */
  predicate IsLineTerminator(c: char) {
    c == '\n' || c == '\r' || c == '\U{2028}' || c == '\U{2029}'
  }

  /** JavaScript's WhiteSpace (TAB, VT, FF, ZWNBSP and every space separator) plus the line terminators. */
  predicate IsWhite(c: char) {
    || c == ' ' || c == '\t' || c == '\U{000B}' || c == '\U{000C}'
    || c == '\U{00A0}' || c == '\U{FEFF}' || c == '\U{1680}'
    || ('\U{2000}' <= c <= '\U{200A}')
    || c == '\U{202F}' || c == '\U{205F}' || c == '\U{3000}'
    || IsLineTerminator(c)
  }

  predicate IsDigit(c: char) {
    '0' <= c <= '9'
  }

  predicate AllWhite(s: string) {
    forall i | 0 <= i < |s| :: IsWhite(s[i])
  }

  predicate AllDigits(s: string) {
    forall i | 0 <= i < |s| :: IsDigit(s[i])
  }

  /** `s` holds a decimal digit somewhere. */
  predicate HasDigit(s: string) {
    exists i | 0 <= i < |s| :: IsDigit(s[i])
  }

  /** A digit in a suffix is a digit in the whole. */
  lemma HasDigitSuffix(s: string, k: nat)
    requires k <= |s|
    ensures HasDigit(s[k..]) ==> HasDigit(s)
  {
    if HasDigit(s[k..]) {
      var i :| 0 <= i < |s[k..]| && IsDigit(s[k..][i]);
      assert IsDigit(s[k + i]);
    }
  }

  predicate NoLineTerminator(s: string) {
    forall i | 0 <= i < |s| :: !IsLineTerminator(s[i])
  }

  /** The longest prefix of `s` made of decimal digits. */
  function DigitPrefix(s: string): (p: string)
    ensures p <= s && AllDigits(p)
    ensures |p| < |s| ==> !IsDigit(s[|p|])
  {
    if |s| > 0 && IsDigit(s[0]) then [s[0]] + DigitPrefix(s[1..]) else []
  }

  /** The longest prefix of `s` made of white space. */
  function WhitePrefix(s: string): (p: string)
    ensures p <= s && AllWhite(p)
    ensures |p| < |s| ==> !IsWhite(s[|p|])
  {
    if |s| > 0 && IsWhite(s[0]) then [s[0]] + WhitePrefix(s[1..]) else []
  }

  /** Any all-digit prefix is no longer than the longest one. */
  lemma {:induction false} DigitPrefixIsLongest(s: string, p: string)
    requires p <= s && AllDigits(p)
    ensures |p| <= |DigitPrefix(s)|
  {
    if |p| > 0 {
      assert s[0] == p[0];
      DigitPrefixIsLongest(s[1..], p[1..]);
    }
  }

  /** Any all-white prefix is no longer than the longest one. */
  lemma {:induction false} WhitePrefixIsLongest(s: string, p: string)
    requires p <= s && AllWhite(p)
    ensures |p| <= |WhitePrefix(s)|
  {
    if |p| > 0 {
      assert s[0] == p[0];
      WhitePrefixIsLongest(s[1..], p[1..]);
    }
  }

  /** `s` without its leading white space. */
  function TrimStart(s: string): (r: string)
    ensures |r| <= |s| && r == s[|s| - |r|..]
    ensures AllWhite(s[..|s| - |r|])
    ensures r == [] || !IsWhite(r[0])
  {
    if |s| > 0 && IsWhite(s[0]) then
      var r := TrimStart(s[1..]);
      assert s[..|s| - |r|] == [s[0]] + s[1..][..|s| - 1 - |r|];
      r
    else s
  }

  /** `s` without its trailing white space. */
  function TrimEnd(s: string): (r: string)
    ensures r <= s
    ensures AllWhite(s[|r|..])
    ensures r == [] || !IsWhite(r[|r| - 1])
  {
    if |s| > 0 && IsWhite(s[|s| - 1]) then TrimEnd(s[..|s| - 1]) else s
  }

  /** `s` has no white space at either end. */
  predicate Trimmed(s: string) {
    s == [] || (!IsWhite(s[0]) && !IsWhite(s[|s| - 1]))
  }

  /** `r` is a slice of `s` with nothing but white space before and after it. */
  predicate WhiteAround(s: string, r: string) {
    exists i | 0 <= i <= |s| - |r| :: r == s[i..i + |r|] && AllWhite(s[..i]) && AllWhite(s[i + |r|..])
  }

  /** `String.prototype.trim`: `s` without leading and trailing white space. */
  function Trim(s: string): (r: string)
    ensures |r| <= |s|
    ensures Trimmed(r)
    ensures WhiteAround(s, r)
  {
    var e := TrimEnd(s);
    var r := TrimStart(e);
    assert r != [] ==> r[|r| - 1] == e[|e| - 1];
    TrimParts(s, e, r);
    r
  }

  /** Cutting white space off the end and then off the start leaves a slice between two white runs. */
  lemma TrimParts(s: string, e: string, r: string)
    requires e <= s && AllWhite(s[|e|..])
    requires |r| <= |e| && r == e[|e| - |r|..] && AllWhite(e[..|e| - |r|])
    ensures WhiteAround(s, r)
  {
    var i := |e| - |r|;
    assert s[..i] == e[..i];
    assert r == s[i..i + |r|];
  }

  /** A string with no white space at either end is its own trimmed form. */
  lemma TrimmedIsFixed(s: string)
    requires Trimmed(s)
    ensures Trim(s) == s
  {
  }

  /** Trimming twice is trimming once. */
  lemma TrimIdempotent(s: string)
    ensures Trim(Trim(s)) == Trim(s)
  {
    TrimmedIsFixed(Trim(s));
  }

  /** ASCII `toLowerCase` of one character. */
  function LowerChar(c: char): (d: char)
    ensures 'A' <= c <= 'Z' ==> d as int == c as int + 32
    ensures !('A' <= c <= 'Z') ==> d == c
  {
    if 'A' <= c <= 'Z' then (c as int + 32) as char else c
  }

  /** ASCII `toLowerCase`, character by character. */
  function Lower(s: string): (r: string)
    ensures |r| == |s|
    ensures forall i | 0 <= i < |s| :: r[i] == LowerChar(s[i])
  {
    seq(|s|, i requires 0 <= i < |s| => LowerChar(s[i]))
  }

  /** `needle` occurs in `hay` starting at position `i`. */
  predicate OccursAt(hay: string, needle: string, i: int) {
    0 <= i && i + |needle| <= |hay| && hay[i..i + |needle|] == needle
  }

  /** `String.prototype.includes`: `needle` occurs in `hay` at some position. */
  predicate Contains(hay: string, needle: string) {
    exists i | 0 <= i <= |hay| - |needle| :: OccursAt(hay, needle, i)
  }

  /** Every string contains the empty string. */
  lemma ContainsEmpty(hay: string)
    ensures Contains(hay, [])
  {
    assert OccursAt(hay, [], 0);
  }
}
