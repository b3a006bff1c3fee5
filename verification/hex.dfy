/**
 * Bytes and their lowercase hexadecimal rendering, as
 * `Array.from(bytes).map(b => b.toString(16).padStart(2, "0")).join("")`
 * produces it.
 */
module Hex {
  import opened Wrappers
  import opened Strings

  /** One element of a `Uint8Array`. */
  newtype byte = x: int | 0 <= x < 256

  /** A digit of the `[0-9a-f]` alphabet `toString(16)` writes. */
  predicate IsLowerHexDigit(c: char) {
    '0' <= c <= '9' || 'a' <= c <= 'f'
  }

  /** A digit of the case-insensitive `[0-9a-fA-F]` class. */
  predicate IsHexDigit(c: char) {
    IsLowerHexDigit(c) || 'A' <= c <= 'F'
  }

  function NibbleValue(c: char): (d: nat)
    requires IsLowerHexDigit(c)
    ensures d < 16
  {
    if c <= '9' then c as int - '0' as int else c as int - 'a' as int + 10
  }

  function NibbleChar(d: nat): (c: char)
    requires d < 16
    ensures IsLowerHexDigit(c) && NibbleValue(c) == d
  {
    if d < 10 then ('0' as int + d) as char else ('a' as int + d - 10) as char
  }

  /** `b.toString(16)`: one digit below 16, two digits from 16 on, no leading zero. */
  function ByteToString16(b: byte): (r: string)
    ensures 1 <= |r| <= 2 && (|r| == 2 ==> r[0] != '0')
    ensures forall i :: 0 <= i < |r| ==> IsLowerHexDigit(r[i])
    ensures |r| == 1 ==> NibbleValue(r[0]) == b as nat
    ensures |r| == 2 ==> NibbleValue(r[0]) * 16 + NibbleValue(r[1]) == b as nat
  {
    if b < 16 then [NibbleChar(b as nat)]
    else [NibbleChar(b as nat / 16), NibbleChar(b as nat % 16)]
  }

  /** `b.toString(16).padStart(2, "0")`: exactly two digits that denote `b`. */
  function ByteHex(b: byte): (r: string)
    ensures |r| == 2 && IsLowerHexDigit(r[0]) && IsLowerHexDigit(r[1])
    ensures NibbleValue(r[0]) * 16 + NibbleValue(r[1]) == b as nat
  {
    PadStart(ByteToString16(b), 2, '0')
  }

  /** The digit pair `c0 c1` read as a byte. */
  function PairValue(c0: char, c1: char): (b: byte)
    requires IsLowerHexDigit(c0) && IsLowerHexDigit(c1)
  {
    (NibbleValue(c0) * 16 + NibbleValue(c1)) as byte
  }

  /** The hex rendering of a byte string: two lowercase digits per byte. */
  function BytesToHex(bs: seq<byte>): (r: string)
    ensures |r| == 2 * |bs|
    ensures forall i :: 0 <= i < |r| ==> IsLowerHexDigit(r[i])
  {
    if bs == [] then [] else ByteHex(bs[0]) + BytesToHex(bs[1..])
  }

  /** Reads a lowercase hex string back into bytes; fails on odd length or a foreign character. */
  function HexToBytes(s: string): (r: Option<seq<byte>>)
    ensures r.Some? ==> 2 * |r.value| == |s|
    decreases |s|
  {
    if s == [] then Some([])
    else if |s| == 1 || !IsLowerHexDigit(s[0]) || !IsLowerHexDigit(s[1]) then None
    else
      match HexToBytes(s[2..])
      case None => None
      case Some(rest) => Some([PairValue(s[0], s[1])] + rest)
  }

  /** Reading the rendering back yields the bytes. */
  lemma {:induction false} HexRoundTrip(bs: seq<byte>)
    ensures HexToBytes(BytesToHex(bs)) == Some(bs)
  {
    if bs != [] {
      var h := BytesToHex(bs);
      assert h == ByteHex(bs[0]) + BytesToHex(bs[1..]);
      var p := ByteHex(bs[0]);
      assert h[0] == p[0] && h[1] == p[1];
      assert h[2..] == BytesToHex(bs[1..]);
      HexRoundTrip(bs[1..]);
      assert PairValue(h[0], h[1]) == bs[0];
      assert HexToBytes(h) == Some([bs[0]] + bs[1..]);
      assert [bs[0]] + bs[1..] == bs;
    }
  }

  /** Distinct byte strings render to distinct hex strings. */
  lemma HexInjective(a: seq<byte>, b: seq<byte>)
    requires BytesToHex(a) == BytesToHex(b)
    ensures a == b
  {
    HexRoundTrip(a);
    HexRoundTrip(b);
  }
}
