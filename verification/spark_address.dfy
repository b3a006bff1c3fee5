/**
 * Spark address validation: a bech32m string whose human-readable prefix
 * names the network, carrying a payload whose identity public key must
 * render as 66 hex digits.
 */
module SparkAddress {
  import opened Wrappers
  import opened Strings
  import opened Hex

  /** The networks the validator knows; the others are commented out. */
  datatype Network = Mainnet | Regtest

  /** `AddressNetwork`: the human-readable prefix of each network. */
  function Prefix(n: Network): (p: string)
    ensures StartsWith(p, "sp")
    ensures n == Regtest ==> StartsWith(p, "sprt")
  {
    match n
    case Mainnet => "sp"
    case Regtest => "sprt"
  }

  /** `networksToTry`, in order of preference. */
  const NetworksToTry: seq<Network> := [Regtest, Mainnet]

  /** The length limit handed to `bech32m.decode`. */
  const Bech32Limit: nat := 200

  /** What `bech32m.decode` returns: the lowercased prefix and the 5-bit words. */
  datatype Bech32 = Bech32(prefix: string, words: seq<nat>)

  /**
   * The foreign steps of a decode, each `None` where the original throws:
   * `bech32m.decode` (called only within the length limit),
   * `bech32m.fromWords`, and `SparkAddress.decode` reduced to the
   * identity public key it yields.
   */
  datatype Codec = Codec(
    bech32: string -> Option<Bech32>,
    fromWords: seq<nat> -> Option<seq<byte>>,
    identityKey: seq<byte> -> Option<seq<byte>>)

  /** The placeholder `SparkAddress.decode`: always 33 zero bytes. */
  function MockIdentityKey(payload: seq<byte>): (r: Option<seq<byte>>)
    ensures r.Some? && |r.value| == 33
    ensures forall i :: 0 <= i < 33 ==> r.value[i] == 0
  {
    Some(seq(33, _ => 0 as byte))
  }

  /** A codec whose payload step is the placeholder. */
  function MockCodec(bech32: string -> Option<Bech32>, fromWords: seq<nat> -> Option<seq<byte>>): (c: Codec)
    ensures c.bech32 == bech32 && c.fromWords == fromWords
    ensures forall p :: c.identityKey(p) == MockIdentityKey(p)
  {
    Codec(bech32, fromWords, MockIdentityKey)
  }

  /** The three `ValidationError`s `decodeSparkAddress` throws. */
  datatype ValidationError =
    | InvalidPrefix(expected: string)
    | InvalidPublicKey
    | DecodeFailed

  /** Every character is in `[0-9a-fA-F]`. */
  function AllHexDigits(s: string): (r: bool)
    ensures r <==> forall i :: 0 <= i < |s| ==> IsHexDigit(s[i])
  {
    if s == [] then true
    else
      assert forall i :: 1 <= i < |s| ==> s[i] == s[1..][i - 1];
      IsHexDigit(s[0]) && AllHexDigits(s[1..])
  }

  /** `isValidPublicKey`: the whole string matches `^[0-9a-fA-F]{66}$`. */
  function IsValidPublicKey(publicKey: string): (r: bool)
    ensures r <==> |publicKey| == 66 && forall i :: 0 <= i < |publicKey| ==> IsHexDigit(publicKey[i])
  {
    |publicKey| == 66 && AllHexDigits(publicKey)
  }

  /** The rendering of a key passes the check exactly when the key has 33 bytes. */
  lemma KeyHexValid(key: seq<byte>)
    ensures IsValidPublicKey(BytesToHex(key)) <==> |key| == 33
  {
    var h := BytesToHex(key);
    assert forall i :: 0 <= i < |h| ==> IsLowerHexDigit(h[i]);
  }

  /**
   * `decodeSparkAddress`: the hex identity public key of an address on
   * `network`, or the error it throws.
   */
  function DecodeSparkAddress(address: string, network: Network, codec: Codec): (r: Result<string, ValidationError>)
    ensures (|address| > Bech32Limit || codec.bech32(address).None?) ==> r == Err(DecodeFailed)
    ensures (|address| <= Bech32Limit && codec.bech32(address).Some?
             && codec.bech32(address).value.prefix != Prefix(network))
            ==> r == Err(InvalidPrefix(Prefix(network)))
    ensures r.Ok? ==> |address| <= Bech32Limit && codec.bech32(address).Some?
                      && codec.bech32(address).value.prefix == Prefix(network)
    ensures r.Ok? ==> IsValidPublicKey(r.value)
    ensures r.Ok? ==> exists key :: |key| == 33 && HexToBytes(r.value) == Some(key)
    ensures r.Ok? <==>
              (|address| <= Bech32Limit
               && var decoded := codec.bech32(address);
                  decoded.Some? && decoded.value.prefix == Prefix(network)
                  && var payload := codec.fromWords(decoded.value.words);
                     payload.Some?
                     && var key := codec.identityKey(payload.value);
                        key.Some? && |key.value| == 33 && r == Ok(BytesToHex(key.value)))
  {
    if |address| > Bech32Limit then Err(DecodeFailed)
    else
      match codec.bech32(address)
      case None => Err(DecodeFailed)
      case Some(decoded) =>
        if decoded.prefix != Prefix(network) then Err(InvalidPrefix(Prefix(network)))
        else
          match codec.fromWords(decoded.words)
          case None => Err(DecodeFailed)
          case Some(payload) =>
            match codec.identityKey(payload)
            case None => Err(DecodeFailed)
            case Some(key) =>
              var publicKey := BytesToHex(key);
              KeyHexValid(key);
              HexRoundTrip(key);
              if IsValidPublicKey(publicKey) then Ok(publicKey) else Err(InvalidPublicKey)
  }

  /** With the placeholder payload step the key check always passes: only the bech32m steps and the prefix decide. */
  lemma MockDecode(address: string, network: Network, bech32: string -> Option<Bech32>, fromWords: seq<nat> -> Option<seq<byte>>)
    ensures DecodeSparkAddress(address, network, MockCodec(bech32, fromWords)).Ok?
        <==> |address| <= Bech32Limit && bech32(address).Some? && bech32(address).value.prefix == Prefix(network)
             && fromWords(bech32(address).value.words).Some?
  {
    var codec := MockCodec(bech32, fromWords);
    if |address| <= Bech32Limit && bech32(address).Some? && bech32(address).value.prefix == Prefix(network) {
      var payload := fromWords(bech32(address).value.words);
      if payload.Some? {
        var key := MockIdentityKey(payload.value).value;
        assert codec.identityKey(payload.value) == Some(key);
        KeyHexValid(key);
      }
    }
  }

  /** One iteration of the loop succeeds: the `startsWith` gate passes and the decode does not throw. */
  predicate Accepts(address: string, network: Network, codec: Codec) {
    StartsWith(address, Prefix(network)) && DecodeSparkAddress(address, network, codec).Ok?
  }

  /** The loop over `networks`: true at the first accepting network, a throw moves on. */
  function TryNetworks(address: string, networks: seq<Network>, codec: Codec): (r: bool)
    ensures r <==> exists i :: 0 <= i < |networks| && Accepts(address, networks[i], codec)
  {
    if networks == [] then false
    else if StartsWith(address, Prefix(networks[0])) && DecodeSparkAddress(address, networks[0], codec).Ok? then
      true
    else
      assert forall i :: 1 <= i < |networks| ==> networks[i] == networks[1..][i - 1];
      TryNetworks(address, networks[1..], codec)
  }

  /** `isValidSparkAddress`. */
  function IsValidSparkAddress(address: string, codec: Codec): (r: bool)
    ensures address == [] ==> !r
    ensures r <==> Accepts(address, Regtest, codec) || Accepts(address, Mainnet, codec)
  {
    if address == [] then false
    else
      assert NetworksToTry[0] == Regtest && NetworksToTry[1] == Mainnet;
      TryNetworks(address, NetworksToTry, codec)
  }

  /** The decoded prefix pins down the network, so at most one network accepts and the order cannot matter. */
  lemma AtMostOneNetwork(address: string, m: Network, n: Network, codec: Codec)
    requires Accepts(address, m, codec) && Accepts(address, n, codec)
    ensures m == n
  {
  }

  /** The network that accepted a valid address. */
  function AcceptingNetwork(address: string, codec: Codec): (r: Option<Network>)
    ensures r.Some? <==> IsValidSparkAddress(address, codec)
    ensures r.Some? ==> Accepts(address, r.value, codec)
  {
    if Accepts(address, Regtest, codec) then Some(Regtest)
    else if Accepts(address, Mainnet, codec) then Some(Mainnet)
    else None
  }

  /**
   * A valid address starts with `sp`, fits the length limit, and its
   * decoded prefix is the prefix of the network that accepted it.
   */
  lemma ValidAddressShape(address: string, codec: Codec)
    requires IsValidSparkAddress(address, codec)
    ensures StartsWith(address, "sp") && |address| <= Bech32Limit
    ensures var n := AcceptingNetwork(address, codec).value;
            StartsWith(address, Prefix(n)) && codec.bech32(address).Some?
            && codec.bech32(address).value.prefix == Prefix(n)
  {
    var n := AcceptingNetwork(address, codec).value;
    assert address[..2] == address[..|Prefix(n)|][..2];
  }

  /** The gate is case-sensitive: an address written in upper case is never valid, whatever the decoder. */
  lemma UpperCaseRejected(address: string, codec: Codec)
    requires address != [] && address[0] == 'S'
    ensures !IsValidSparkAddress(address, codec)
  {
    if IsValidSparkAddress(address, codec) {
      ValidAddressShape(address, codec);
    }
  }
}
