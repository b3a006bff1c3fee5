/**
 * Character and string vocabulary shared by the parsers: prefixes,
 * substrings, ECMAScript whitespace, ASCII case folding and padding.
 */
module Strings {

  /** `s.startsWith(p)`: `p` agrees with `s` position by position. */
  function StartsWith(s: string, p: string): (b: bool)
    ensures b <==> |p| <= |s| && forall i :: 0 <= i < |p| ==> s[i] == p[i]
  {
    |p| <= |s| && s[..|p|] == p
  }

  /** `s.endsWith(p)` */
  predicate EndsWith(s: string, p: string) {
    |p| <= |s| && s[|s| - |p|..] == p
  }

  /** `p` occurs in `s` at offset `k`. */
  predicate OccursAt(s: string, p: string, k: int) {
    0 <= k && k + |p| <= |s| && s[k..k + |p|] == p
  }

  /** `p` occurs somewhere in `s`. */
  ghost predicate Occurs(s: string, p: string) {
    exists k :: OccursAt(s, p, k)
  }

  /** `s.includes(p)`, searched left to right. */
  function Includes(s: string, p: string): (r: bool)
    ensures r <==> Occurs(s, p)
    decreases |s|
  {
    if StartsWith(s, p) then
      assert OccursAt(s, p, 0);
      true
    else if s == [] then
      false
    else
      OccursShift(s, p);
      Includes(s[1..], p)
  }

  /** Away from offset 0, an occurrence in `s` is one in `s[1..]`. */
  lemma OccursShift(s: string, p: string)
    requires s != [] && !StartsWith(s, p)
    ensures Occurs(s, p) <==> Occurs(s[1..], p)
  {
    if Occurs(s[1..], p) {
      var k :| OccursAt(s[1..], p, k);
      assert s[k + 1..k + 1 + |p|] == s[1..][k..k + |p|];
      assert OccursAt(s, p, k + 1);
    }
    if Occurs(s, p) {
      var k :| OccursAt(s, p, k);
      if k != 0 {
        assert s[1..][k - 1..k - 1 + |p|] == s[k..k + |p|];
        assert OccursAt(s[1..], p, k - 1);
      }
    }
  }

  /**
   * The characters ECMAScript classes as WhiteSpace or LineTerminator: the
   * class matched by `\s` in a regular expression and removed by `trim()`.
   */
  function IsWhitespace(c: char): (b: bool)
    ensures c < '\U{0080}' ==> (b <==> c == '\t' || c == '\n' || c == '\U{000B}' || c == '\U{000C}' || c == '\r' || c == ' ')
    ensures b ==> !('0' <= c <= '9') && !('A' <= c <= 'Z') && !('a' <= c <= 'z') && c != '"' && c != '\''
  {
    || c == '\t' || c == '\n' || c == '\U{000B}' || c == '\U{000C}' || c == '\r'
    || c == ' ' || c == '\U{00A0}' || c == '\U{1680}'
    || ('\U{2000}' <= c <= '\U{200A}')
    || c == '\U{2028}' || c == '\U{2029}' || c == '\U{202F}' || c == '\U{205F}'
    || c == '\U{3000}' || c == '\U{FEFF}'
  }

  predicate IsAsciiUpper(c: char) {
    'A' <= c <= 'Z'
  }

  predicate IsAsciiLower(c: char) {
    'a' <= c <= 'z'
  }

  predicate IsAsciiDigit(c: char) {
    '0' <= c <= '9'
  }

  /** `toLowerCase()` on one character, restricted to the ASCII letters. */
  function LowerChar(c: char): (r: char)
    ensures IsAsciiUpper(c) ==> IsAsciiLower(r) && r as int - c as int == 32
    ensures !IsAsciiUpper(c) ==> r == c
  {
    if IsAsciiUpper(c) then (c as int + 32) as char else c
  }

  /** `toLowerCase()` on a string (ASCII letters only). */
  function Lower(s: string): (r: string)
    ensures |r| == |s|
    ensures forall i :: 0 <= i < |s| ==> r[i] == LowerChar(s[i])
  {
    seq(|s|, i requires 0 <= i < |s| => LowerChar(s[i]))
  }

  /** The index of the first `c` in `s`, or the length when there is none. */
  function IndexOf(s: string, c: char): (k: nat)
    ensures k <= |s|
    ensures forall i :: 0 <= i < k ==> s[i] != c
    ensures k < |s| ==> s[k] == c
  {
    if s == [] || s[0] == c then 0 else 1 + IndexOf(s[1..], c)
  }

  /** `k` copies of `c`. */
  function Repeat(c: char, k: nat): (r: string)
    ensures |r| == k
    ensures forall i :: 0 <= i < k ==> r[i] == c
  {
    seq(k, _ => c)
  }

  /** `s.padStart(n, c)` for a one-character pad string. */
  function PadStart(s: string, n: nat, c: char): (r: string)
    ensures |s| >= n ==> r == s
    ensures |s| < n ==> |r| == n
    ensures EndsWith(r, s)
    ensures forall i :: 0 <= i < |r| - |s| ==> r[i] == c
  {
    if |s| >= n then s else Repeat(c, n - |s|) + s
  }

  /** Concatenation is associative; stated once so callers need not rebuild it element by element. */
  lemma ConcatAssoc(a: string, b: string, c: string)
    ensures a + b + c == a + (b + c)
  {
  }

  /** A non-empty string is its front followed by its last character. */
  lemma LastSplit(s: string)
    requires s != []
    ensures s == s[..|s| - 1] + [s[|s| - 1]]
  {
  }
}
