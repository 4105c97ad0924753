/**
 * The string primitives the component relies on: `String.prototype.trim`, the `\s`/`\S`
 * character classes, `toLowerCase`, `includes`, and the e-mail pattern `/\S+@\S+\.\S+/`.
 */
module Text {

  /** The characters ECMAScript counts as white space or line terminators (trim and `\s`). */
  predicate IsSpace(c: char) {
    ('\t' <= c && c <= '\r') || c == ' ' || c == '\U{00A0}' || c == '\U{1680}'
    || ('\U{2000}' <= c && c <= '\U{200A}') || c == '\U{2028}' || c == '\U{2029}'
    || c == '\U{202F}' || c == '\U{205F}' || c == '\U{3000}' || c == '\U{FEFF}'
  }

  /** `s.trimStart()`: drops the leading white space. */
  function TrimStart(s: string): (r: string)
    ensures |r| <= |s| && r == s[|s| - |r|..]
    ensures forall i :: 0 <= i < |s| - |r| ==> IsSpace(s[i])
    ensures r == [] || !IsSpace(r[0])
  {
    if s != [] && IsSpace(s[0]) then TrimStart(s[1..]) else s
  }

  /** `s.trimEnd()`: drops the trailing white space. */
  function TrimEnd(s: string): (r: string)
    ensures |r| <= |s| && r == s[..|r|]
    ensures forall i :: |r| <= i < |s| ==> IsSpace(s[i])
    ensures r == [] || !IsSpace(r[|r| - 1])
  {
    if s != [] && IsSpace(s[|s| - 1]) then TrimEnd(s[..|s| - 1]) else s
  }

  /** Where the trimmed text starts: the number of leading white-space characters. */
  function TrimOffset(s: string): nat {
    |s| - |TrimStart(s)|
  }

  /** `s.trim()`: the slice of `s` between its leading and its trailing white space. */
  function Trim(s: string): (r: string)
    ensures var a := TrimOffset(s);
              a + |r| <= |s| && r == s[a..a + |r|]
              && (forall i :: 0 <= i < a ==> IsSpace(s[i]))
              && (forall i :: a + |r| <= i < |s| ==> IsSpace(s[i]))
    ensures r == [] || (!IsSpace(r[0]) && !IsSpace(r[|r| - 1]))
  {
    var t := TrimStart(s);
    var r := TrimEnd(t);
    SuffixPrefix(s, t, r);
    r
  }

  /** A prefix `r` of a suffix `t` of `s` is a slice of `s`; what follows it in `t` follows it in `s`. */
  lemma SuffixPrefix(s: string, t: string, r: string)
    requires |t| <= |s| && t == s[|s| - |t|..]
    requires |r| <= |t| && r == t[..|r|]
    requires forall i :: |r| <= i < |t| ==> IsSpace(t[i])
    ensures r == s[|s| - |t|..|s| - |t| + |r|]
    ensures forall i :: |s| - |t| + |r| <= i < |s| ==> IsSpace(s[i])
  {
    var a := |s| - |t|;
    forall i | a + |r| <= i < |s|
      ensures IsSpace(s[i])
    {
      assert s[i] == t[i - a];
    }
  }

  /** JavaScript's `!s.trim()`: the string is empty or white space only. */
  predicate IsBlank(s: string) {
    Trim(s) == []
  }

  /** A string is blank exactly when every one of its characters is white space. */
  lemma BlankIffAllSpace(s: string)
    ensures IsBlank(s) <==> forall i :: 0 <= i < |s| ==> IsSpace(s[i])
  {
    var r, a := Trim(s), TrimOffset(s);
    if r != [] {
      assert s[a] == r[0];
    }
  }

  /** `toLowerCase` on one character: the ASCII capitals map to small letters. */
  function LowerChar(c: char): char {
    if 'A' <= c && c <= 'Z' then (c as int - 'A' as int + 'a' as int) as char else c
  }

  /** `s.toLowerCase()`, character by character. */
  function Lower(s: string): string {
    seq(|s|, i requires 0 <= i < |s| => LowerChar(s[i]))
  }

  /** `needle` occurs in `hay` starting at position `i`. */
  predicate OccursAt(hay: string, needle: string, i: int) {
    0 <= i <= |hay| - |needle| && hay[i..i + |needle|] == needle
  }

  /** `hay.includes(needle)`: `needle` occurs in `hay` at some position. */
  predicate Contains(hay: string, needle: string) {
    exists i | 0 <= i <= |hay| :: OccursAt(hay, needle, i)
  }

  /**
   * One match of `/\S+@\S+\.\S+/` in `s`: the `@` at `at`, the `.` at `dot`, a non-space
   * character just before the `@` and just after the `.`, and only non-space characters between.
   * (Longer runs of `\S` around a match are matches too; one character each side is enough.)
   */
  predicate EmailMatchAt(s: string, at: int, dot: int) {
    0 < at && at + 1 < dot && dot + 1 < |s| && s[at] == '@' && s[dot] == '.'
    && !IsSpace(s[at - 1]) && !IsSpace(s[dot + 1])
    && (forall k :: at < k < dot ==> !IsSpace(s[k]))
  }

  /** `/\S+@\S+\.\S+/.test(s)`: the pattern is unanchored, so a match anywhere in `s` counts. */
  predicate MatchesEmailPattern(s: string) {
    exists at, dot | 0 <= at < |s| && 0 <= dot < |s| :: EmailMatchAt(s, at, dot)
  }

  /** The pattern is unanchored: text around a matching string never undoes the match. */
  lemma EmailPatternUnanchored(pre: string, s: string, post: string)
    requires MatchesEmailPattern(s)
    ensures MatchesEmailPattern(pre + s + post)
  {
    var at, dot :| 0 <= at < |s| && 0 <= dot < |s| && EmailMatchAt(s, at, dot);
    var t := pre + s + post;
    var at', dot' := |pre| + at, |pre| + dot;
    assert forall k :: 0 <= k < |s| ==> t[|pre| + k] == s[k];
    assert t[at'] == '@' && t[dot'] == '.' && !IsSpace(t[at' - 1]) && !IsSpace(t[dot' + 1]);
    assert forall k :: at' < k < dot' ==> !IsSpace(t[k]) by {
      forall k | at' < k < dot' ensures !IsSpace(t[k]) {
        assert t[k] == s[k - |pre|];
      }
    }
    assert EmailMatchAt(t, at', dot');
  }

  /** A string matching the pattern holds an `@` before a later `.`, with text on either side. */
  lemma EmailPatternShape(s: string)
    requires MatchesEmailPattern(s)
    ensures exists at, dot :: 0 < at < dot < |s| - 1 && s[at] == '@' && s[dot] == '.'
    ensures !IsBlank(s)
  {
    var at, dot :| 0 <= at < |s| && 0 <= dot < |s| && EmailMatchAt(s, at, dot);
    assert 0 < at < dot < |s| - 1 && s[at] == '@' && s[dot] == '.';
    assert !IsSpace(s[at]);
    BlankIffAllSpace(s);
  }
}
