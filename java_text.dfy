/**
 * The pieces of `java.lang.String`, `java.lang.Character` and Spring's
 * `StringUtils` that the job search relies on. Strings are sequences of
 * Unicode scalar values; every character these functions single out lies in
 * the Basic Multilingual Plane, so UTF-16 surrogate pairs make no difference.
 */
module JavaText {
  import opened Wrappers

  /**
   * `Character.isWhitespace`: the space, line and paragraph separators of
   * Unicode except the three no-break spaces (U+00A0, U+2007, U+202F), plus
   * the controls U+0009..U+000D and U+001C..U+001F.
   */
  predicate IsWhitespace(c: char)
    ensures c == ' ' || c == '\t' || c == '\n' || c == '\r' ==> IsWhitespace(c)
    ensures c == '\U{A0}' || c == '\U{2007}' || c == '\U{202F}' || c == '\U{85}' ==> !IsWhitespace(c)
    ensures IsWhitespace(c) ==> c <= ' ' || '\U{1680}' <= c <= '\U{3000}'
  {
    || ('\t' <= c <= '\r')
    || ('\U{1C}' <= c <= ' ')
    || c == '\U{1680}'
    || ('\U{2000}' <= c <= '\U{2006}')
    || ('\U{2008}' <= c <= '\U{200A}')
    || c == '\U{2028}' || c == '\U{2029}'
    || c == '\U{205F}' || c == '\U{3000}'
  }

  /** The characters `String.trim` removes: every code point up to U+0020. */
  predicate IsTrimmable(c: char) {
    c <= ' '
  }

  /** `String.isBlank`: empty, or whitespace only. */
  predicate IsBlank(s: string)
    ensures s == [] ==> IsBlank(s)
    ensures IsBlank(s) && s != [] ==> IsWhitespace(s[0]) && IsWhitespace(s[|s| - 1])
  {
    forall k :: 0 <= k < |s| ==> IsWhitespace(s[k])
  }

  /** `StringUtils.hasText`: not null and holding a non-whitespace character. */
  predicate HasText(s: Option<string>)
    ensures HasText(s) ==> s.Some? && s.value != []
    ensures HasText(s) <==> s.Some? && Strip(s.value) != []
  {
    s.Some? && !IsBlank(s.value)
  }

  /** The length of the longest prefix of `s` made of characters `drop` accepts. */
  function LeadingRun(s: string, drop: char -> bool): (n: nat)
    ensures n <= |s|
    ensures forall k :: 0 <= k < n ==> drop(s[k])
    ensures n < |s| ==> !drop(s[n])
  {
    if s == [] || !drop(s[0]) then 0 else 1 + LeadingRun(s[1..], drop)
  }

  /** The length of the longest suffix of `s` made of characters `drop` accepts. */
  function TrailingRun(s: string, drop: char -> bool): (n: nat)
    ensures n <= |s|
    ensures forall k :: |s| - n <= k < |s| ==> drop(s[k])
    ensures n < |s| ==> !drop(s[|s| - 1 - n])
  {
    if s == [] || !drop(s[|s| - 1]) then 0 else 1 + TrailingRun(s[..|s| - 1], drop)
  }

  /**
   * `s` without its leading and trailing characters accepted by `drop`: the
   * result is the infix of `s` that starts after the leading run, it is empty
   * exactly when `drop` accepts every character, and otherwise neither of its
   * ends is accepted by `drop`.
   */
  function StripWith(s: string, drop: char -> bool): (r: string)
    ensures LeadingRun(s, drop) + |r| <= |s|
    ensures r == s[LeadingRun(s, drop)..LeadingRun(s, drop) + |r|]
    ensures forall k :: LeadingRun(s, drop) + |r| <= k < |s| ==> drop(s[k])
    ensures r == [] <==> forall k :: 0 <= k < |s| ==> drop(s[k])
    ensures r != [] ==> !drop(r[0]) && !drop(r[|r| - 1])
  {
    var lo := LeadingRun(s, drop);
    var t := s[lo..];
    var n := TrailingRun(t, drop);
    assert t != [] ==> !drop(t[0]) && n < |t|;
    t[..|t| - n]
  }

  /** `String.trim`: drops code points up to U+0020 from both ends. */
  function Trim(s: string): (r: string)
    ensures r == [] <==> forall k :: 0 <= k < |s| ==> s[k] <= ' '
    ensures r != [] ==> r[0] > ' ' && r[|r| - 1] > ' '
  {
    StripWith(s, IsTrimmable)
  }

  /** `String.strip`: drops `Character.isWhitespace` characters from both ends. */
  function Strip(s: string): (r: string)
    ensures r == [] <==> IsBlank(s)
    ensures r != [] ==> !IsWhitespace(r[0]) && !IsWhitespace(r[|r| - 1])
  {
    StripWith(s, IsWhitespace)
  }

  /** A string whose two ends are neither trimmable nor whitespace is left as it is by `Trim`, and has text. */
  lemma CleanWordIsKept(s: string)
    requires s != []
    requires !IsTrimmable(s[0]) && !IsTrimmable(s[|s| - 1]) && !IsWhitespace(s[0])
    ensures Trim(s) == s && !IsBlank(s)
  {
    assert LeadingRun(s, IsTrimmable) == 0;
    assert TrailingRun(s, IsTrimmable) == 0;
  }
}
