/**
 * String literals as `JSON.stringify` writes them, and a reader that takes
 * them back: the serialisation of the relay notification body.
 */
module JsonString {
  import opened Wrappers
  import Hex

  /** Characters `JSON.stringify` writes as they are inside a string literal. */
  predicate IsPlain(c: char) {
    c >= ' ' && c != '"' && c != '\\'
  }

  /** How `JSON.stringify` writes one character inside a string literal. */
  function EscapeChar(c: char): (r: string)
    ensures IsPlain(c) <==> r == [c]
    ensures !IsPlain(c) ==> 2 <= |r| && r[0] == '\\'
  {
    if c == '"' then "\\\""
    else if c == '\\' then "\\\\"
    else if c == '\U{0008}' then "\\b"
    else if c == '\U{000C}' then "\\f"
    else if c == '\n' then "\\n"
    else if c == '\r' then "\\r"
    else if c == '\t' then "\\t"
    else if c < ' ' then "\\u00" + [Hex.NibbleChar(c as int / 16), Hex.NibbleChar(c as int % 16)]
    else [c]
  }

  /** The contents of the literal `JSON.stringify(s)`, without the quotes. */
  function Escape(s: string): string {
    if s == [] then [] else EscapeChar(s[0]) + Escape(s[1..])
  }

  /** `JSON.stringify(s)` for a string `s`: a literal in quotes that reads back as `s`. */
  function Quote(s: string): (r: string)
    ensures |r| >= 2 && r[0] == '"' && r[|r| - 1] == '"'
    ensures ReadString(r[1..]) == Some((s, []))
  {
    QuoteRoundTrip(s, []);
    var r := "\"" + Escape(s) + "\"";
    assert r[1..] == Escape(s) + "\"" + [];
    r
  }

  /** The value of four lowercase hex digits. */
  function Hex4(t: string): (v: nat)
    requires |t| == 4 && forall i :: 0 <= i < 4 ==> Hex.IsLowerHexDigit(t[i])
    ensures v < 0x10000
  {
    ((Hex.NibbleValue(t[0]) * 16 + Hex.NibbleValue(t[1])) * 16 + Hex.NibbleValue(t[2])) * 16 + Hex.NibbleValue(t[3])
  }

  /** One character of a literal's contents: the character and how many were read. */
  function ReadChar(t: string): (r: Option<(char, nat)>)
    requires t != [] && t[0] != '"'
    ensures r.Some? ==> 1 <= r.value.1 <= |t|
  {
    if t[0] != '\\' then
      if t[0] < ' ' then None else Some((t[0], 1))
    else if |t| < 2 then None
    else if t[1] == '"' then Some(('"', 2))
    else if t[1] == '\\' then Some(('\\', 2))
    else if t[1] == '/' then Some(('/', 2))
    else if t[1] == 'b' then Some(('\U{0008}', 2))
    else if t[1] == 'f' then Some(('\U{000C}', 2))
    else if t[1] == 'n' then Some(('\n', 2))
    else if t[1] == 'r' then Some(('\r', 2))
    else if t[1] == 't' then Some(('\t', 2))
    else if t[1] == 'u' && |t| >= 6 && forall i :: 2 <= i < 6 ==> Hex.IsLowerHexDigit(t[i]) then
      var v := Hex4(t[2..6]);
      if 0xD800 <= v < 0xE000 then None else Some((v as char, 6))
    else None
  }

  /**
   * Reads a literal's contents up to the closing quote: the text it denotes
   * and what follows the quote.
   */
  function ReadString(t: string): Option<(string, string)>
    decreases |t|
  {
    if t == [] then None
    else if t[0] == '"' then Some(([], t[1..]))
    else
      match ReadChar(t)
      case None => None
      case Some((c, n)) =>
        match ReadString(t[n..])
        case None => None
        case Some((x, rest)) => Some(([c] + x, rest))
  }

  /** The reader takes back exactly the one character `EscapeChar` wrote. */
  lemma ReadEscapedChar(c: char, tail: string)
    ensures var t := EscapeChar(c) + tail;
      t != [] && t[0] != '"' && ReadChar(t) == Some((c, |EscapeChar(c)|))
  {
    var e := EscapeChar(c);
    var t := e + tail;
    if !IsPlain(c) && c != '"' && c != '\\' && c != '\U{0008}' && c != '\U{000C}'
      && c != '\n' && c != '\r' && c != '\t' {
      assert t[2..6] == e[2..6];
      assert e[2] == '0' && e[3] == '0';
      assert Hex4(t[2..6]) == c as int;
    }
  }

  /** Reading back what `Escape` wrote, closed by a quote, yields the string and the rest. */
  lemma {:induction false} QuoteRoundTrip(s: string, rest: string)
    ensures ReadString(Escape(s) + "\"" + rest) == Some((s, rest))
  {
    if s == [] {
      assert Escape(s) + "\"" + rest == "\"" + rest;
      assert ("\"" + rest)[1..] == rest;
    } else {
      var e := EscapeChar(s[0]);
      var tail := Escape(s[1..]) + "\"" + rest;
      assert Escape(s) + "\"" + rest == e + tail;
      ReadEscapedChar(s[0], tail);
      assert (e + tail)[|e|..] == tail;
      QuoteRoundTrip(s[1..], rest);
      assert [s[0]] + s[1..] == s;
    }
  }

  /** Strings of plain characters (an invoice, for one) are written unchanged. */
  lemma {:induction false} EscapePlain(s: string)
    requires forall i :: 0 <= i < |s| ==> IsPlain(s[i])
    ensures Escape(s) == s
  {
    if s != [] {
      EscapePlain(s[1..]);
      assert [s[0]] + s[1..] == s;
    }
  }
}
