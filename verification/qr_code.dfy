/**
 * Classification of a scanned QR payload: lightning invoice, Spark
 * address, bitcoin address or unknown, tried in that order.
 */
module QrCode {
  import opened Strings
  import LightningInvoice
  import SparkAddress

  /** `QRCodeType`. */
  datatype QRCodeType = Lightning | Spark | Bitcoin | Unknown

  /** The base58 class `[a-km-zA-HJ-NP-Z1-9]`. */
  function IsBase58Char(c: char): (r: bool)
    ensures r ==> c != '0' && c != 'O' && c != 'I' && c != 'l'
    ensures r ==> IsAsciiLower(c) || IsAsciiUpper(c) || IsAsciiDigit(c)
  {
    ('a' <= c <= 'k') || ('m' <= c <= 'z') || ('A' <= c <= 'H') || ('J' <= c <= 'N')
    || ('P' <= c <= 'Z') || ('1' <= c <= '9')
  }

  /** The class `[a-z0-9]`. */
  predicate IsLowerAlnum(c: char) {
    IsAsciiLower(c) || IsAsciiDigit(c)
  }

  /** The number of characters from `i` on that belong to `cls`, up to the first that does not. */
  function ClassRun(s: string, i: nat, cls: char -> bool): (k: nat)
    requires i <= |s|
    ensures i + k <= |s|
    ensures forall j :: i <= j < i + k ==> cls(s[j])
    ensures i + k < |s| ==> !cls(s[i + k])
    decreases |s| - i
  {
    if i == |s| || !cls(s[i]) then 0 else 1 + ClassRun(s, i + 1, cls)
  }

  /** Matches the tail `cls{lo,hi}$` of a pattern against `s[from..]`. */
  function ClassRepeat(s: string, from: nat, cls: char -> bool, lo: nat, hi: nat): (r: bool)
    requires from <= |s|
    ensures r <==> lo <= |s| - from <= hi && forall i :: from <= i < |s| ==> cls(s[i])
  {
    var k := ClassRun(s, from, cls);
    from + k == |s| && lo <= k <= hi
  }

  /** A legacy address: `^[13][a-km-zA-HJ-NP-Z1-9]{25,34}$`. */
  function IsLegacyAddress(data: string): (r: bool)
    ensures r <==> 26 <= |data| <= 35 && (data[0] == '1' || data[0] == '3')
                   && forall i :: 1 <= i < |data| ==> IsBase58Char(data[i])
  {
    |data| >= 1 && (data[0] == '1' || data[0] == '3') && ClassRepeat(data, 1, IsBase58Char, 25, 34)
  }

  /** A bech32 address with the literal prefix `hrp`: `^<hrp>[a-z0-9]{39,59}$`. */
  function IsSegwitAddress(data: string, hrp: string): (r: bool)
    ensures r <==> StartsWith(data, hrp) && 39 <= |data| - |hrp| <= 59
                   && forall i :: |hrp| <= i < |data| ==> IsLowerAlnum(data[i])
  {
    StartsWith(data, hrp) && ClassRepeat(data, |hrp|, IsLowerAlnum, 39, 59)
  }

  /**
   * Any of the four bitcoin address patterns: legacy, or segwit with the
   * `bc1`, `tb1` or `bcrt1` prefix. Every such address is 26 to 64 ASCII
   * letters and digits and starts with `1`, `3`, `b` or `t`.
   */
  function IsBitcoinAddress(data: string): (b: bool)
    ensures b ==> 26 <= |data| <= 64 && data[0] in "13bt"
    ensures b ==> forall i :: 0 <= i < |data| ==> IsAsciiLower(data[i]) || IsAsciiUpper(data[i]) || IsAsciiDigit(data[i])
  {
    if IsLegacyAddress(data) then true
    else if IsSegwitAddress(data, "bc1") then SegwitPrefix(data, "bc1"); true
    else if IsSegwitAddress(data, "tb1") then SegwitPrefix(data, "tb1"); true
    else if IsSegwitAddress(data, "bcrt1") then SegwitPrefix(data, "bcrt1"); true
    else false
  }

  /** A segwit address begins with its prefix, character by character. */
  lemma SegwitPrefix(data: string, hrp: string)
    requires IsSegwitAddress(data, hrp)
    ensures forall i :: 0 <= i < |hrp| ==> data[i] == hrp[i]
  {
    assert data[..|hrp|] == hrp;
  }

  /** `identifyQRCodeType`, with the Spark decoding steps as a parameter. */
  function IdentifyQRCodeType(data: string, codec: SparkAddress.Codec): (r: QRCodeType)
    ensures r == Lightning <==> LightningInvoice.HasInvoicePrefix(data)
    ensures r == Spark <==> !LightningInvoice.HasInvoicePrefix(data) && SparkAddress.IsValidSparkAddress(data, codec)
    ensures r == Bitcoin <==>
              (!LightningInvoice.HasInvoicePrefix(data) && !SparkAddress.IsValidSparkAddress(data, codec)
               && IsBitcoinAddress(data))
    ensures r == Unknown ==> !IsBitcoinAddress(data)
  {
    if LightningInvoice.HasInvoicePrefix(data) then Lightning
    else if SparkAddress.IsValidSparkAddress(data, codec) then Spark
    else if IsBitcoinAddress(data) then Bitcoin
    else Unknown
  }

  /** The lowercased payload of an invoice starts with `l`, so its first character is `l` or `L`. */
  lemma InvoiceStartsWithL(data: string)
    requires LightningInvoice.HasInvoicePrefix(data)
    ensures data != [] && (data[0] == 'l' || data[0] == 'L')
  {
    var l := Lower(data);
    assert l[0] == 'l';
  }

  /** A first character that begins no invoice. */
  lemma NotInvoice(data: string)
    requires data != [] && data[0] != 'l' && data[0] != 'L'
    ensures !LightningInvoice.HasInvoicePrefix(data)
  {
    if LightningInvoice.HasInvoicePrefix(data) {
      InvoiceStartsWithL(data);
    }
  }

  lemma FirstChar(data: string, prefix: string)
    requires prefix != []
    ensures StartsWith(data, prefix) ==> data[0] == prefix[0]
  {
    if StartsWith(data, prefix) {
      assert data[0] == data[..|prefix|][0];
    }
  }

  /** A valid Spark address is classified as such, whatever the decoding steps. */
  lemma SparkAddressClassified(data: string, codec: SparkAddress.Codec)
    requires SparkAddress.IsValidSparkAddress(data, codec)
    ensures IdentifyQRCodeType(data, codec) == Spark
  {
    SparkAddress.ValidAddressShape(data, codec);
    FirstChar(data, "sp");
    NotInvoice(data);
  }

  /** A bitcoin address is never an invoice or a Spark address, so it is classified as bitcoin. */
  lemma BitcoinAddressClassified(data: string, codec: SparkAddress.Codec)
    requires IsBitcoinAddress(data)
    ensures IdentifyQRCodeType(data, codec) == Bitcoin
  {
    if !IsLegacyAddress(data) {
      FirstChar(data, "bc1");
      FirstChar(data, "tb1");
      FirstChar(data, "bcrt1");
    }
    NotInvoice(data);
    if SparkAddress.IsValidSparkAddress(data, codec) {
      SparkAddress.ValidAddressShape(data, codec);
      FirstChar(data, "sp");
    }
  }
}
