/**
 * Token amounts: a uint128 carried as up to 16 bytes in either byte order,
 * rendered as a fixed-point decimal with a given number of decimal places.
 */
module TokenAmount {
  import opened Wrappers
  import opened Strings
  import opened Decimal
  import opened Hex

  function Pow256(k: nat): (r: nat)
    ensures r >= 1
  {
    if k == 0 then 1 else 256 * Pow256(k - 1)
  }

  /** 2^128, the first value a uint128 cannot hold. */
  const Uint128Bound: nat := 0x1_0000_0000_0000_0000_0000_0000_0000_0000

  /** The longest byte string a uint128 is read from. */
  const MaxBytes: nat := 16

  const TooManyBytes := "Uint128 must have at most 16 bytes"

  lemma {:induction false} Pow256Monotone(j: nat, k: nat)
    requires j <= k
    ensures Pow256(j) <= Pow256(k)
  {
    if j < k {
      Pow256Monotone(j, k - 1);
    }
  }

  lemma {:induction false} Pow256Add(j: nat, k: nat)
    ensures Pow256(j + k) == Pow256(j) * Pow256(k)
  {
    if k > 0 {
      Pow256Add(j, k - 1);
    }
  }

  lemma Pow256MaxBytes()
    ensures Pow256(MaxBytes) == Uint128Bound
  {
    Pow256Add(2, 2);
    Pow256Add(4, 4);
    Pow256Add(8, 8);
  }

  lemma MulMonotone(a: nat, b: nat, c: nat)
    requires a <= b
    ensures a * c <= b * c
  {
  }

  /** Big-endian: the first byte is the most significant, Σ b[i]·256^(n-1-i). */
  function BeValue(bs: seq<byte>): nat {
    if bs == [] then 0 else BeValue(bs[..|bs| - 1]) * 256 + bs[|bs| - 1] as nat
  }

  /** Little-endian: the first byte is the least significant, Σ b[i]·256^i. */
  function LeValue(bs: seq<byte>): nat {
    if bs == [] then 0 else LeValue(bs[..|bs| - 1]) + bs[|bs| - 1] as nat * Pow256(|bs| - 1)
  }

  lemma {:induction false} BeBound(bs: seq<byte>)
    ensures BeValue(bs) < Pow256(|bs|)
  {
    if bs != [] {
      BeBound(bs[..|bs| - 1]);
    }
  }

  lemma {:induction false} LeBound(bs: seq<byte>)
    ensures LeValue(bs) < Pow256(|bs|)
  {
    if bs != [] {
      var n := |bs| - 1;
      LeBound(bs[..n]);
      MulMonotone(bs[n] as nat, 255, Pow256(n));
    }
  }

  /** Prepending a byte to a big-endian string adds it at the top place. */
  lemma {:induction false} BeCons(x: byte, t: seq<byte>)
    ensures BeValue([x] + t) == x as nat * Pow256(|t|) + BeValue(t)
  {
    if t == [] {
      assert [x] + t == [x];
      assert [x][..0] == [];
    } else {
      var t', y := t[..|t| - 1], t[|t| - 1];
      assert ([x] + t)[..|t|] == [x] + t';
      BeCons(x, t');
      assert BeValue([x] + t) == (x as nat * Pow256(|t'|) + BeValue(t')) * 256 + y as nat;
    }
  }

  function Reverse(bs: seq<byte>): (r: seq<byte>)
    ensures |r| == |bs|
    ensures forall i :: 0 <= i < |bs| ==> r[i] == bs[|bs| - 1 - i]
  {
    seq(|bs|, i requires 0 <= i < |bs| => bs[|bs| - 1 - i])
  }

  /** Reading little-endian is reading the reversed bytes big-endian. */
  lemma {:induction false} LeIsReversedBe(bs: seq<byte>)
    ensures LeValue(bs) == BeValue(Reverse(bs))
  {
    if bs != [] {
      var h, x := bs[..|bs| - 1], bs[|bs| - 1];
      LeIsReversedBe(h);
      assert Reverse(bs) == [x] + Reverse(h);
      BeCons(x, Reverse(h));
    }
  }

  /**
   * `uint128FromBytes`, with the loops of the original. In the
   * little-endian loop `result |= b << 8i` is an addition: `result` is below
   * `256^i`, so the shifted byte's bits do not overlap it.
   */
  method Uint128FromBytes(bytes: seq<byte>, littleEndian: bool) returns (r: Result<nat, string>)
    ensures |bytes| > MaxBytes <==> r.Err?
    ensures r.Err? ==> r.error == TooManyBytes
    ensures r.Ok? && littleEndian ==> r.value == LeValue(bytes)
    ensures r.Ok? && !littleEndian ==> r.value == BeValue(bytes)
    ensures r.Ok? ==> r.value < Uint128Bound
  {
    if |bytes| > MaxBytes {
      return Err(TooManyBytes);
    }
    var result := 0;
    var i := 0;
    if littleEndian {
      while i < |bytes|
        invariant 0 <= i <= |bytes|
        invariant result == LeValue(bytes[..i])
      {
        assert bytes[..i + 1][..i] == bytes[..i];
        result := result + bytes[i] as nat * Pow256(i);
        i := i + 1;
      }
      assert bytes[..i] == bytes;
      LeBound(bytes);
    } else {
      while i < |bytes|
        invariant 0 <= i <= |bytes|
        invariant result == BeValue(bytes[..i])
      {
        assert bytes[..i + 1][..i] == bytes[..i];
        result := result * 256 + bytes[i] as nat;
        i := i + 1;
      }
      assert bytes[..i] == bytes;
      BeBound(bytes);
    }
    Pow256Monotone(|bytes|, MaxBytes);
    Pow256MaxBytes();
    return Ok(result);
  }

  // ---------------------------------------------------------------------------
  // Fixed-point rendering

  /** `s.replace(/0+$/, "")`: the longest run of trailing zeros removed. */
  function StripTrailingZeros(s: string): (r: string)
    ensures |r| <= |s| && s == r + Zeros(|s| - |r|)
    ensures r == [] || r[|r| - 1] != '0'
  {
    if s != [] && s[|s| - 1] == '0' then
      var r := StripTrailingZeros(s[..|s| - 1]);
      assert Zeros(|s| - |r|) == Zeros(|s| - 1 - |r|) + ['0'];
      r
    else
      assert Zeros(0) == [];
      s
  }

  /** The whole units in `raw` smallest units: the integer division by `10^decimals`. */
  function WholeUnits(raw: nat, decimals: nat): (w: nat)
    ensures w * Pow10(decimals) <= raw < (w + 1) * Pow10(decimals)
  {
    var p := Pow10(decimals);
    DivBounds(raw, p);
    raw / p
  }

  /** The smallest units left over once the whole units are taken out. */
  function Remainder(raw: nat, decimals: nat): (m: nat)
    ensures m < Pow10(decimals)
  {
    var p := Pow10(decimals);
    DivBounds(raw, p);
    raw % p
  }

  /** The number of smallest units that the digits `r`, read after the point, stand for. */
  function Scaled(r: string, decimals: nat): nat
    requires AllDigits(r) && |r| <= decimals
  {
    Value(r) * Pow10(decimals - |r|)
  }

  /** The digits after the point: the remainder padded to `decimals` digits, trailing zeros removed. */
  function FractionDigits(raw: nat, decimals: nat): (r: string)
    ensures AllDigits(r) && |r| <= decimals
    ensures r == [] || r[|r| - 1] != '0'
    ensures Scaled(r, decimals) == Remainder(raw, decimals)
    ensures r == [] <==> Remainder(raw, decimals) == 0
  {
    var f := Remainder(raw, decimals);
    StrippedFraction(f, decimals);
    StripTrailingZeros(PadStart(ToString(f), decimals, '0'))
  }

  /** The padded, stripped digits of a remainder stand for that remainder. */
  lemma StrippedFraction(f: nat, decimals: nat)
    requires f < Pow10(decimals)
    ensures var r := StripTrailingZeros(PadStart(ToString(f), decimals, '0'));
            AllDigits(r) && |r| <= decimals && Scaled(r, decimals) == f && (r == [] <==> f == 0)
  {
    PaddedValue(f, decimals);
    StrippedPadding(PadStart(ToString(f), decimals, '0'), f, decimals);
  }

  /** Stripping the padded digits of `f` leaves digits that stand for `f` after the point. */
  lemma StrippedPadding(p: string, f: nat, decimals: nat)
    requires AllDigits(p) && Value(p) == f
    requires decimals >= 1 ==> |p| == decimals
    requires decimals == 0 ==> p == "0"
    ensures var r := StripTrailingZeros(p);
            AllDigits(r) && |r| <= decimals && Scaled(r, decimals) == f && (r == [] <==> f == 0)
  {
    StripKeepsDigits(p);
    if decimals >= 1 {
      ScaledStripped(p, decimals);
    } else {
      assert Value(p) == 0;
    }
  }



  /** Stripping trailing zeros from `decimals` digits keeps what they stand for after the point. */
  lemma ScaledStripped(p: string, decimals: nat)
    requires AllDigits(p) && |p| == decimals
    ensures var r := StripTrailingZeros(p);
            AllDigits(r) && Scaled(r, decimals) == Value(p)
  {
    var r := StripTrailingZeros(p);
    var k := |p| - |r|;
    assert p[..|r|] == r;
    ValueTrailingZeros(r, k);
  }

  /** Padding the remainder's rendering to `decimals` digits keeps its value. */
  lemma PaddedValue(f: nat, decimals: nat)
    requires f < Pow10(decimals)
    ensures var p := PadStart(ToString(f), decimals, '0');
            AllDigits(p) && Value(p) == f
            && (decimals >= 1 ==> |p| == decimals)
            && (decimals == 0 ==> p == "0")
  {
    var digits := ToString(f);
    var p := PadStart(digits, decimals, '0');
    if decimals >= 1 {
      ToStringLength(f, decimals);
      var k := decimals - |digits|;
      PadWithZeros(digits, decimals);
      ValueLeadingZeros(digits, k);
    }
  }

  lemma PadWithZeros(s: string, n: nat)
    requires |s| <= n
    ensures PadStart(s, n, '0') == Zeros(n - |s|) + s
  {
    if |s| < n {
      assert Repeat('0', n - |s|) == Zeros(n - |s|);
    } else {
      assert Zeros(0) + s == s;
    }
  }


  /** Stripping trailing zeros from digits leaves digits, and leaves nothing exactly when they denote zero. */
  lemma StripKeepsDigits(p: string)
    requires AllDigits(p)
    ensures var r := StripTrailingZeros(p);
            AllDigits(r) && (r == [] <==> Value(p) == 0)
  {
    var r := StripTrailingZeros(p);
    var k := |p| - |r|;
    assert p[..|r|] == r;
    ValueTrailingZeros(r, k);
    if r != [] {
      PositiveValue(r);
    }
  }

  /** Digits ending in a non-zero digit denote a positive number. */
  lemma PositiveValue(r: string)
    requires AllDigits(r) && r != [] && r[|r| - 1] != '0'
    ensures Value(r) >= 1
  {
  }

  /** The `formatted` field: the integer part, then `.` and the fraction when there is one. */
  function FormatAmount(raw: nat, decimals: nat): (r: string)
    ensures ('.' in r) <==> Remainder(raw, decimals) != 0
  {
    var whole := ToString(WholeUnits(raw, decimals));
    var fraction := FractionDigits(raw, decimals);
    DigitsExclude(whole, '.');
    if |fraction| > 0 then
      DigitsExclude(fraction, '.');
      whole + "." + fraction
    else
      whole
  }

  /**
   * Reads a rendered amount back as an integer count of the smallest unit:
   * digits, optionally `.` and at most `decimals` further digits.
   */
  function ParseAmount(s: string, decimals: nat): (r: Option<nat>)
  {
    var k := IndexOf(s, '.');
    var whole := s[..k];
    if whole == [] || !AllDigits(whole) then None
    else if k == |s| then Some(Value(whole) * Pow10(decimals))
    else
      var fraction := s[k + 1..];
      if fraction == [] || !AllDigits(fraction) || |fraction| > decimals then None
      else Some(Value(whole) * Pow10(decimals) + Scaled(fraction, decimals))
  }

  /** Reading the rendering back gives exactly the raw amount. */
  lemma FormatRoundTrip(raw: nat, decimals: nat)
    ensures ParseAmount(FormatAmount(raw, decimals), decimals) == Some(raw)
  {
    var whole := ToString(WholeUnits(raw, decimals));
    var fraction := FractionDigits(raw, decimals);
    FormatShape(raw, decimals);
    DivMod(raw, decimals);
    if fraction != [] {
      ParseWithFraction(whole, fraction, decimals);
    } else {
      ParseWhole(whole, decimals);
    }
  }

  lemma FormatShape(raw: nat, decimals: nat)
    ensures var whole := ToString(WholeUnits(raw, decimals));
            var fraction := FractionDigits(raw, decimals);
            FormatAmount(raw, decimals) == if fraction == [] then whole else whole + "." + fraction
  {
  }

  /** The amount is its whole units scaled up plus the remainder. */
  lemma DivMod(raw: nat, decimals: nat)
    ensures raw == WholeUnits(raw, decimals) * Pow10(decimals) + Remainder(raw, decimals)
  {
    DivBounds(raw, Pow10(decimals));
  }

  lemma ParseWhole(whole: string, decimals: nat)
    requires whole != [] && AllDigits(whole)
    ensures ParseAmount(whole, decimals) == Some(Value(whole) * Pow10(decimals))
  {
    DotAfterDigits(whole, "");
    assert whole + "" == whole;
  }

  lemma ParseWithFraction(whole: string, fraction: string, decimals: nat)
    requires whole != [] && AllDigits(whole)
    requires fraction != [] && AllDigits(fraction) && |fraction| <= decimals
    ensures ParseAmount(whole + "." + fraction, decimals)
            == Some(Value(whole) * Pow10(decimals) + Scaled(fraction, decimals))
  {
    var s := whole + "." + fraction;
    SplitAtDot(whole, fraction);
    var w, f := s[..|whole|], s[|whole| + 1..];
    assert ParseAmount(s, decimals) == Some(Value(w) * Pow10(decimals) + Scaled(f, decimals));
  }

  /** Where a rendering with a fraction splits: at the dot behind the integer digits. */
  lemma SplitAtDot(whole: string, fraction: string)
    requires AllDigits(whole)
    ensures var s := whole + "." + fraction;
            IndexOf(s, '.') == |whole| < |s| && s[..|whole|] == whole && s[|whole| + 1..] == fraction
  {
    var s := whole + "." + fraction;
    assert s == whole + ("." + fraction);
    DotAfterDigits(whole, "." + fraction);
    assert s[..|whole|] == whole;
    assert s[|whole| + 1..] == fraction;
  }

  /** The first `.` after a run of digits is right behind it. */
  lemma {:induction false} DotAfterDigits(whole: string, rest: string)
    requires AllDigits(whole)
    requires rest == [] || rest[0] == '.'
    ensures IndexOf(whole + rest, '.') == |whole|
  {
    if whole == [] {
      assert whole + rest == rest;
    } else {
      assert (whole + rest)[1..] == whole[1..] + rest;
      assert IsAsciiDigit((whole + rest)[0]);
      DotAfterDigits(whole[1..], rest);
    }
  }

  /** Distinct amounts render differently. */
  lemma FormatInjective(a: nat, b: nat, decimals: nat)
    ensures FormatAmount(a, decimals) == FormatAmount(b, decimals) ==> a == b
  {
    FormatRoundTrip(a, decimals);
    FormatRoundTrip(b, decimals);
  }

  /** The optional flags of `decodeTokenAmount`; an absent flag is `false`. */
  datatype DecodeOptions = DecodeOptions(littleEndian: bool, autoDetect: bool)

  /** The result of `decodeTokenAmount` without its floating-point `asNumber`. */
  datatype DecodedAmount = DecodedAmount(raw: nat, formatted: string)

  /**
   * `decodeTokenAmount`: with `autoDetect`, the smaller of the two byte
   * orders; otherwise the requested one.
   */
  method DecodeTokenAmount(bytes: seq<byte>, decimals: nat, opts: DecodeOptions) returns (r: Result<DecodedAmount, string>)
    ensures |bytes| > MaxBytes <==> r.Err?
    ensures r.Ok? && opts.autoDetect ==> r.value.raw == Min(LeValue(bytes), BeValue(bytes))
    ensures r.Ok? && !opts.autoDetect && opts.littleEndian ==> r.value.raw == LeValue(bytes)
    ensures r.Ok? && !opts.autoDetect && !opts.littleEndian ==> r.value.raw == BeValue(bytes)
    ensures r.Ok? ==> r.value.raw < Uint128Bound
    ensures r.Ok? ==> r.value.formatted == FormatAmount(r.value.raw, decimals)
    ensures r.Ok? ==> ParseAmount(r.value.formatted, decimals) == Some(r.value.raw)
  {
    var raw: nat;
    if opts.autoDetect {
      var le := Uint128FromBytes(bytes, true);
      if le.Err? {
        return Err(le.error);
      }
      var be := Uint128FromBytes(bytes, false);
      raw := if le.value <= be.value then le.value else be.value;
    } else {
      var v := Uint128FromBytes(bytes, opts.littleEndian);
      if v.Err? {
        return Err(v.error);
      }
      raw := v.value;
    }
    FormatRoundTrip(raw, decimals);
    return Ok(DecodedAmount(raw, FormatAmount(raw, decimals)));
  }

  /** The places the transaction list shows: six decimals, big-endian. */
  const DisplayDecimals: nat := 6

  /**
   * The amount the transaction list shows for an output:
   * `decodeTokenAmount(tokenAmount, 6, { littleEndian: false }).formatted`.
   */
  method DisplayedAmount(tokenAmount: seq<byte>) returns (r: Result<string, string>)
    ensures |tokenAmount| > MaxBytes <==> r.Err?
    ensures r.Ok? ==> r.value == FormatAmount(BeValue(tokenAmount), DisplayDecimals)
    ensures r.Ok? ==> ParseAmount(r.value, DisplayDecimals) == Some(BeValue(tokenAmount))
  {
    var decoded := DecodeTokenAmount(tokenAmount, DisplayDecimals, DecodeOptions(false, false));
    if decoded.Err? {
      return Err(decoded.error);
    }
    return Ok(decoded.value.formatted);
  }

  /** `formatTokenIdentifier`: `0x` and two lowercase hex digits per byte. */
  function FormatTokenIdentifier(tokenIdentifier: seq<byte>): (r: string)
    ensures |r| == 2 + 2 * |tokenIdentifier|
    ensures StartsWith(r, "0x")
    ensures forall i :: 2 <= i < |r| ==> IsLowerHexDigit(r[i])
    ensures HexToBytes(r[2..]) == Some(tokenIdentifier)
  {
    var h := BytesToHex(tokenIdentifier);
    HexRoundTrip(tokenIdentifier);
    assert ("0x" + h)[2..] == h;
    "0x" + h
  }

  /** Distinct identifiers are displayed differently. */
  lemma TokenIdentifierInjective(a: seq<byte>, b: seq<byte>)
    requires FormatTokenIdentifier(a) == FormatTokenIdentifier(b)
    ensures a == b
  {
  }
}
