# Spark wallet helpers in Dafny

This project models the pure logic of a React Native Spark wallet and proves
properties of that model. The logic covered is:

- **Lightning invoices.** The BOLT11 validity check. The relay configuration
  that a payment notification may carry in the invoice description, found
  either by JSON or by a URL scan. The invoice-details record. The HTTP
  notification the wallet sends to the relay after a payment attempt.
- **Spark addresses.** The bech32m Spark address check and the per-network
  decoding it is built on.
- **Token transactions.** The decoding of a uint128 token amount from bytes and
  its fixed-point rendering. The `0x` token identifier. The status labels and
  colours.
- **QR codes.** The classification of a scanned payload as a lightning invoice,
  a Spark address, a bitcoin address or unknown.
- **Mnemonic form.** The cleaning, splitting and counting of a recovery phrase,
  the message the form shows, and the state of the open button.
- **Invoice label.** How a long invoice is shortened for display, while a tap
  copies the whole invoice.

Foreign components become parameters:

- The BOLT11 decoder is a function that returns the decoded sections, or `None`
  where the decoder throws.
- `JSON.parse` is a function that returns the parsed object, or `None` where it
  throws.
- The bech32m decoder, `fromWords` and the Spark payload decoder form a `Codec`.
  `MockCodec` instantiates it with the placeholder payload decoder the source
  ships.
- `fetch` is a function from the request to whether a 2xx response arrived
  within the timeout.

Modules:

| module | file | what it holds |
|---|---|---|
| `Wrappers` | wrappers.dfy | `Option`, `Result` |
| `Strings` | strings.dfy | `startsWith`, `includes`, ECMAScript `\s`, ASCII `toLowerCase`, `padStart` |
| `Decimal` | decimal.dfy | `toString()` of non-negative integers and the value of digit strings |
| `Hex` | hex.dfy | bytes to lowercase hex (`toString(16).padStart(2, "0")`) and back |
| `RelayConfigs` | relay_config.dfy | `RelayConfig`, the custom header, the parsed JSON object |
| `RelayUrl` | relay_url.dfy | the global scan `https?:\/\/[^\s"']+` and the relay marker test |
| `JsonString` | json_string.dfy | `JSON.stringify` of a string, and a reader for it |
| `LightningInvoice` | lightning_invoice.dfy | validity check, memo relay, details record |
| `RelayCall` | relay_call.dfy | headers, body, request, and the post-payment relay step |
| `SparkAddress` | spark_address.dfy | network prefixes, per-network decode, the address check |
| `TokenAmount` | token_amount.dfy | uint128 from bytes, amount formatting, token identifier |
| `TokenStatus` | token_status.dfy | status text and colour |
| `QrCode` | qr_code.dfy | QR payload classification |
| `Mnemonic` | mnemonic.dfy | phrase cleaning, word count, validation message |
| `InvoiceLabel` | invoice_label.dfy | invoice truncation for display |

Each operation has a partner that its lemmas connect it to:

- formatting has a parser, and hex encoding has a decoder;
- the body builder has a body reader;
- the string-pipeline word splitter has a run-based reference definition;
- invoice-detail extraction has a `find`-based reference relation, `Extracts`, which fixes one record per section list, and a section builder it inverts;
- the two status tables are checked against each other.

## Model

| member | source | states |
|---|---|---|
| Strings.Includes | src/utils/lightningInvoiceParser.ts:104-106 | `url.includes(p)` holds exactly when `p` occurs somewhere in `url` |
| Strings.StartsWith | src/utils/lightningInvoiceParser.ts:37 | `s.startsWith(p)` holds exactly when `p` is no longer than `s` and agrees with it position by position |
| Strings.IsWhitespace | src/components/OpenWalletForm/index.tsx:33 | the ECMAScript WhiteSpace and LineTerminator set used by `\s` and `trim()`: tab, line feed, U+000B, U+000C, carriage return, space, U+00A0, U+1680, U+2000 to U+200A, U+2028, U+2029, U+202F, U+205F, U+3000 and U+FEFF; among ASCII exactly the first six, and never a digit, a letter or a quote |
| Strings.Lower | src/utils/lightningInvoiceParser.ts:37 | `toLowerCase()` keeps the length and lowercases every ASCII capital, leaving other characters alone |
| Strings.PadStart | src/components/TokenTransactions/index.tsx:93 | `padStart(n, c)` leaves a string of length at least `n` unchanged; otherwise it yields exactly `n` characters, ending in the original string, with only `c` in front |
| Decimal.ToString | src/components/TokenTransactions/index.tsx:100-101 | `toString()` of a non-negative integer is a non-empty digit string, with no leading zero unless it is "0", whose value is the integer |
| Decimal.ToStringInjective | src/components/TokenTransactions/index.tsx:100-101 | distinct integers render differently |
| Decimal.ValueAppend | src/components/TokenTransactions/index.tsx:100 | digits followed by digits denote the first number shifted by the second's length, plus the second |
| Decimal.IntToString | src/utils/lightningInvoiceParser.ts:229 | `String(n)` of an integer starts with `-` exactly when it is negative, followed by canonical digits (no leading zero except `0` itself) whose value is its magnitude |
| Hex.ByteHex | src/utils/sparkAddressValidation.ts:52 | a byte renders as exactly two lowercase hex digits that read back as the byte |
| Hex.BytesToHex | src/utils/sparkAddressValidation.ts:50-54 | the hex string has two lowercase hex digits per byte |
| Hex.HexRoundTrip | src/utils/sparkAddressValidation.ts:50-54 | reading the hex string back yields the original bytes |
| Hex.HexInjective | src/utils/sparkAddressValidation.ts:50-54 | distinct byte strings have distinct hex strings |
| LightningInvoice.Find | src/utils/lightningInvoiceParser.ts:152-154 | `sections.find` returns nothing exactly when no section has the field; otherwise it returns the section of that field with no earlier one |
| LightningInvoice.FindAppend | src/utils/lightningInvoiceParser.ts:180-185 | `find` on a concatenation consults the second part only when the first has no section of the field |
| LightningInvoice.PrefixLnbcrtSubsumed | src/utils/lightningInvoiceParser.ts:37 | the `lnbcrt` alternative of the prefix pattern adds nothing to `lnbc` |
| LightningInvoice.IsValidLightningInvoice | src/utils/lightningInvoiceParser.ts:34-50 | valid exactly when the lowercased invoice starts with `lnbc`/`lntb`/`lnbcrt` and the decoder succeeds with at least one section; a throw gives false |
| LightningInvoice.PrefixGateIgnoresDecoder | src/utils/lightningInvoiceParser.ts:37-39 | without the prefix, the answer is false whatever the decoder would do |
| LightningInvoice.MemoText | src/utils/lightningInvoiceParser.ts:72-80 | the memo is the text of the first description section when it is non-empty; a missing or empty description gives none |
| LightningInvoice.JsonRelay | src/utils/lightningInvoiceParser.ts:86-91 | the parsed object is returned unchanged, header included, exactly when its `relay` is a non-empty string |
| LightningInvoice.MemoRelay | src/utils/lightningInvoiceParser.ts:85-118 | the JSON route wins when it applies; otherwise the first marked URL of the scan becomes a header-less configuration; otherwise none. Any result has a non-empty relay |
| LightningInvoice.ParseLightningInvoiceMemo | src/utils/lightningInvoiceParser.ts:60-123 | a decoder throw or a missing or empty description gives null; when there is a description, the result is exactly the relay the memo yields (JSON first, then the URL scan); a result with a header came from JSON |
| LightningInvoice.PaymentHashOf | src/utils/lightningInvoiceParser.ts:151-157 | `paymentHash` is present exactly when the first `payment_hash` section has a non-empty value, and is then that value |
| LightningInvoice.AmountMsatOf | src/utils/lightningInvoiceParser.ts:159-168 | `amountMsat` is present exactly when an `amount` section exists, and is then the first one's value |
| LightningInvoice.DescriptionOf | src/utils/lightningInvoiceParser.ts:170-177 | `description` is present exactly when a `description` section exists, and is then the first one's text, even when empty |
| LightningInvoice.Seconds | src/utils/lightningInvoiceParser.ts:187-192 | the truthiness test on `timestamp` and `expiry`: the seconds of such a section exactly when they are non-zero, and nothing for zero, a missing section or another field |
| LightningInvoice.CreatedAtOf | src/utils/lightningInvoiceParser.ts:180-191 | `createdAt` is present exactly when the first `timestamp` section has non-zero seconds, and is then those seconds times 1000 |
| LightningInvoice.ExpiresAtOf | src/utils/lightningInvoiceParser.ts:180-199 | `expiresAt` is present exactly when the first `timestamp` and the first `expiry` sections both have non-zero seconds, and is then their sum times 1000, after `createdAt` |
| LightningInvoice.DetailsOf | src/utils/lightningInvoiceParser.ts:139-200 | the record is the one `Extracts` fixes: each field comes from the first section of its name under the source's truthiness test, `amount` is `floor(amountMsat / 1000)`, and there is no description hash; the record is well formed |
| LightningInvoice.ParseLightningInvoiceDetails | src/utils/lightningInvoiceParser.ts:132-208 | a decoder throw gives the empty record; otherwise the result is the record `Extracts` fixes for the decoded sections; the result is well formed |
| LightningInvoice.ExtractsUnique | src/utils/lightningInvoiceParser.ts:149-200 | the reference relation fixes one record per section list, so the extraction is determined by the first section of each field |
| LightningInvoice.OtherSectionIgnored | src/utils/lightningInvoiceParser.ts:149-200 | a section whose name is none of the five field names, anywhere in the list, does not change the extracted record |
| LightningInvoice.FindSectionsOf | src/utils/lightningInvoiceParser.ts:152-185 | in the sections built from a record, `find` returns that record's section of each field |
| LightningInvoice.DatesRoundTrip | src/utils/lightningInvoiceParser.ts:187-199 | both dates of a well-formed record are recovered from the timestamp and expiry seconds |
| LightningInvoice.DetailsRoundTrip | src/utils/lightningInvoiceParser.ts:149-200 | extraction recovers every well-formed record from its sections: extraction is onto the well-formed records |
| RelayUrl.SchemeLength | src/utils/lightningInvoiceParser.ts:97 | `https?://` at an offset has length 8 exactly for `https://`, 7 exactly for `http://`, and is absent otherwise |
| RelayUrl.IsUrlChar | src/utils/lightningInvoiceParser.ts:97 | the class `[^\s"']`: any character that is neither whitespace nor one of the two quotes; printable ASCII belongs exactly when it is not a quote, and space, tab, line feed and carriage return never belong |
| RelayUrl.RunEnd | src/utils/lightningInvoiceParser.ts:97 | the greedy `[^\s"']+` run covers only class characters and stops at the end or at a non-class character |
| RelayUrl.MatchAt | src/utils/lightningInvoiceParser.ts:97 | trying the pattern at an offset gives a match exactly when one exists there, and it is the maximal one |
| RelayUrl.MatchUnique | src/utils/lightningInvoiceParser.ts:97 | a match starting at a given offset ends in one place only |
| RelayUrl.Matches | src/utils/lightningInvoiceParser.ts:97-98 | `match(/…/g)` lists every match left to right: each search resumes at the previous match's end, and nothing is skipped in between or after |
| RelayUrl.FirstMarked | src/utils/lightningInvoiceParser.ts:102-114 | the first match that includes `/relay`, `/callback` or `/webhook`, with no marked match before it |
| RelayUrl.FindRelayUrl | src/utils/lightningInvoiceParser.ts:96-115 | a found URL is the text of some match of the global scan with no marked match before it, so it is the first match carrying `/relay`, `/callback` or `/webhook`; it starts with `http://` or `https://` and has no whitespace or quotes; none found means no match carries a marker |
| RelayUrl.MatchText | src/utils/lightningInvoiceParser.ts:97 | the text of a match begins with its scheme and holds only class characters |
| JsonString.Quote | src/utils/lightningInvoiceParser.ts:245 | `JSON.stringify` of a string is a literal between double quotes that reads back as the string with nothing left over |
| JsonString.EscapeChar | src/utils/lightningInvoiceParser.ts:245 | a character other than a quote, a backslash or a control character is written as itself; every other character becomes an escape sequence that starts with a backslash |
| JsonString.QuoteRoundTrip | src/utils/lightningInvoiceParser.ts:245 | reading an escaped string back up to its closing quote yields the string and leaves the rest untouched |
| JsonString.EscapePlain | src/utils/lightningInvoiceParser.ts:245 | strings without quotes, backslashes or control characters are written unchanged |
| RelayCall.HeaderText | src/utils/lightningInvoiceParser.ts:229 | `String(value)` throws exactly for an object with its own `toString` member; otherwise a string gives itself, a boolean `true`/`false`, a safe integer (magnitude below 2^53) its sign and decimal digits, and `null`, `undefined` and any other object `null`, `undefined` and `[object Object]` |
| RelayCall.Headers | src/utils/lightningInvoiceParser.ts:222-230 | building the headers throws exactly when the custom key or value cannot be rendered; otherwise they hold `Content-Type` and `User-Agent` and at most one more key, `String(key)`, mapped to `String(value)` and winning on a shared key; a key rendering as `__proto__` adds nothing, and the fixed values stand unless overridden |
| RelayCall.ProtoKeyAddsNoHeader | src/utils/lightningInvoiceParser.ts:229 | a custom header named `__proto__` reaches the inherited setter, which ignores a string, so only the two fixed headers are sent |
| RelayCall.BodyJson | src/utils/lightningInvoiceParser.ts:243-246 | the body is one object `{"invoice":…}` whose member is the literal `false` exactly on a failed payment and a JSON string otherwise |
| RelayCall.BodyRoundTrip | src/utils/lightningInvoiceParser.ts:290-292 | the receiver reads back exactly the outcome the body was built from: the invoice on success, `false` on failure |
| RelayCall.RequestFor | src/utils/lightningInvoiceParser.ts:222-246 | no request exactly when the headers throw; otherwise a POST to the relay with the 10 s timeout and those headers, with a body exactly when one is given, which reads back as given |
| RelayCall.MakeRelayHttpCall | src/utils/lightningInvoiceParser.ts:217-265 | the request sent is the one built from the configuration and body; when building the headers throws, nothing is sent and the result is false (the catch); otherwise exactly one request goes to the relay and its success is the result |
| RelayCall.ThrowingHeaderSendsNothing | src/utils/lightningInvoiceParser.ts:228-264 | a custom key or value with its own `toString` member means no request and the result false |
| RelayCall.ProcessLightningPaymentRelay | src/utils/lightningInvoiceParser.ts:275-312 | no request and `true` when the memo has no relay; with a relay, no request and `false` exactly when its headers throw, otherwise one request to that relay with its headers, whose body reads back as the payment outcome, and the result is the request's success |
| RelayCall.FailureBodyIsConstant | src/utils/lightningInvoiceParser.ts:290-292 | after a failed payment, any request sent has the body `{"invoice":false}` whatever the invoice |
| SparkAddress.Prefix | src/utils/sparkAddressValidation.ts:9-15 | every network prefix starts with `sp`, and the regtest one with `sprt` |
| SparkAddress.MockIdentityKey | src/utils/sparkAddressValidation.ts:39-47 | the placeholder payload decoder always yields 33 zero bytes |
| SparkAddress.MockCodec | src/utils/sparkAddressValidation.ts:39-47 | the shipped codec uses the placeholder for every payload |
| SparkAddress.AllHexDigits | src/utils/sparkAddressValidation.ts:58 | the class `[0-9a-fA-F]` holds for every character |
| SparkAddress.IsValidPublicKey | src/utils/sparkAddressValidation.ts:56-60 | `/^[0-9a-fA-F]{66}$/` holds exactly for 66 hex digits of either case |
| SparkAddress.KeyHexValid | src/utils/sparkAddressValidation.ts:75-77 | the hex of a key passes the key check exactly when the key has 33 bytes |
| SparkAddress.DecodeSparkAddress | src/utils/sparkAddressValidation.ts:63-98 | decoding succeeds exactly when the address fits 200 characters, bech32m-decodes with the network's prefix, and `fromWords` and the payload decoder yield a 33-byte key, whose hex is the result; a wrong prefix raises the prefix error; any other failure is an error |
| SparkAddress.MockDecode | src/utils/sparkAddressValidation.ts:74-82 | with the placeholder, decoding succeeds exactly when the length, the bech32m decode, the prefix and `fromWords` succeed |
| SparkAddress.TryNetworks | src/utils/sparkAddressValidation.ts:115-127 | the loop returns true exactly when some network in the list passes its `startsWith` gate and decodes; a throw moves on |
| SparkAddress.IsValidSparkAddress | src/utils/sparkAddressValidation.ts:100-131 | the empty string is invalid; an address is valid exactly when regtest or mainnet accepts it |
| SparkAddress.AtMostOneNetwork | src/utils/sparkAddressValidation.ts:106-118 | at most one network accepts an address, so the order of the list cannot change the answer |
| SparkAddress.AcceptingNetwork | src/utils/sparkAddressValidation.ts:106-127 | a network accepts exactly the valid addresses |
| SparkAddress.ValidAddressShape | src/utils/sparkAddressValidation.ts:115-122 | a valid address starts with `sp`, fits the 200-character limit, and its decoded prefix is its network's prefix |
| SparkAddress.UpperCaseRejected | src/utils/sparkAddressValidation.ts:118 | an address written with an upper-case `S` is rejected by the case-sensitive prefix gate |
| TokenAmount.BeBound | src/components/TokenTransactions/index.tsx:55-59 | the big-endian value of `n` bytes is below `256^n` |
| TokenAmount.LeBound | src/components/TokenTransactions/index.tsx:51-54 | the little-endian value of `n` bytes is below `256^n` |
| TokenAmount.LeIsReversedBe | src/components/TokenTransactions/index.tsx:51-59 | the little-endian reading is the big-endian reading of the reversed bytes |
| TokenAmount.Uint128FromBytes | src/components/TokenTransactions/index.tsx:45-61 | more than 16 bytes throw the fixed message; otherwise the result is the little- or big-endian value as requested, below `2^128` |
| TokenAmount.StripTrailingZeros | src/components/TokenTransactions/index.tsx:96 | `replace(/0+$/, "")` removes only zeros, and all trailing ones |
| TokenAmount.WholeUnits | src/components/TokenTransactions/index.tsx:88-89 | `raw / divisor` on BigInt: the largest count of whole units, `w * 10^decimals <= raw < (w + 1) * 10^decimals` |
| TokenAmount.Remainder | src/components/TokenTransactions/index.tsx:90 | the fractional part is below the divisor `10^decimals` |
| TokenAmount.FractionDigits | src/components/TokenTransactions/index.tsx:90-96 | the fraction digits are at most `decimals` digits without a trailing zero; read after the point they make the remainder; they are empty exactly when the remainder is zero |
| TokenAmount.FormatAmount | src/components/TokenTransactions/index.tsx:98-101 | the formatted amount has a point exactly when the remainder is non-zero |
| TokenAmount.FormatRoundTrip | src/components/TokenTransactions/index.tsx:88-101 | reading the formatted amount back at `decimals` places gives the raw amount |
| TokenAmount.FormatInjective | src/components/TokenTransactions/index.tsx:88-101 | distinct raw amounts format differently |
| TokenAmount.DecodeTokenAmount | src/components/TokenTransactions/index.tsx:70-101 | too many bytes throw; auto-detect takes the smaller of the two readings, otherwise the requested order; the raw value is below `2^128`, `formatted` is the fixed-point rendering of it at `decimals`, and reads back as it |
| TokenAmount.DisplayedAmount | src/components/TokenTransactions/index.tsx:337-341 | the amount shown for a transfer output is its big-endian value rendered at six decimals, which reads back as that value; more than 16 bytes throw |
| TokenAmount.FormatTokenIdentifier | src/components/TokenTransactions/index.tsx:117-125 | `0x` then two lowercase hex digits per byte, which read back as the identifier |
| TokenAmount.TokenIdentifierInjective | src/components/TokenTransactions/index.tsx:117-125 | distinct identifiers display differently |
| TokenStatus.StatusText | src/components/TokenTransactions/index.tsx:127-146 | the label is "Unknown" exactly for codes outside 0..5 |
| TokenStatus.StatusColor | src/components/TokenTransactions/index.tsx:148-163 | the colour is one of five, and gray exactly for codes outside 0..5 |
| TokenStatus.ColorFollowsText | src/components/TokenTransactions/index.tsx:127-163 | the two switch tables agree: every code's colour is the colour of its label |
| TokenStatus.GreenIffFinalized | src/components/TokenTransactions/index.tsx:150-151 | green is shown exactly for "Finalized" |
| TokenStatus.RedIffCancelled | src/components/TokenTransactions/index.tsx:155-157 | red is shown exactly for the two cancelled states |
| TokenStatus.StatusTextInjective | src/components/TokenTransactions/index.tsx:128-140 | the six named codes have six distinct labels |
| QrCode.IsBase58Char | src/components/QRCodeScanner/index.tsx:72 | the base58 class excludes `0`, `O`, `I` and `l` and holds only ASCII letters and digits |
| QrCode.ClassRepeat | src/components/QRCodeScanner/index.tsx:72-75 | `cls{lo,hi}$` from an offset holds exactly when the rest has between `lo` and `hi` characters, all in the class |
| QrCode.IsLegacyAddress | src/components/QRCodeScanner/index.tsx:72 | `^[13][base58]{25,34}$`: 26 to 35 characters, first `1` or `3`, the rest base58 |
| QrCode.IsSegwitAddress | src/components/QRCodeScanner/index.tsx:73-75 | `^<hrp>[a-z0-9]{39,59}$`: the prefix, then 39 to 59 lowercase letters or digits |
| QrCode.IsBitcoinAddress | src/components/QRCodeScanner/index.tsx:72-75 | one of the legacy, `bc1`, `tb1` or `bcrt1` patterns; any such address has 26 to 64 ASCII letters and digits and starts with `1`, `3`, `b` or `t` |
| QrCode.IdentifyQRCodeType | src/components/QRCodeScanner/index.tsx:58-80 | the tests run in order: lightning exactly for the invoice prefixes; Spark exactly for valid Spark addresses that are not invoices; bitcoin exactly for bitcoin addresses that are neither; unknown otherwise |
| QrCode.InvoiceStartsWithL | src/components/QRCodeScanner/index.tsx:60-62 | data classified as an invoice begins with `l` or `L` |
| QrCode.NotInvoice | src/components/QRCodeScanner/index.tsx:60-62 | data beginning with another character is never an invoice |
| QrCode.SparkAddressClassified | src/components/QRCodeScanner/index.tsx:60-69 | every valid Spark address is classified as Spark, whatever the codec |
| QrCode.BitcoinAddressClassified | src/components/QRCodeScanner/index.tsx:60-77 | every bitcoin address is classified as bitcoin: no invoice and no Spark address matches a bitcoin pattern |
| Mnemonic.TrimStart | src/components/OpenWalletForm/index.tsx:33 | trimming the front never lengthens, leaves no leading whitespace, and removes a leading whitespace character |
| Mnemonic.TrimStartSplits | src/components/OpenWalletForm/index.tsx:33 | the trimmed part is all whitespace and the rest is a suffix |
| Mnemonic.TrimEnd | src/components/OpenWalletForm/index.tsx:33 | trimming the end leaves a prefix followed only by whitespace, and no trailing whitespace |
| Mnemonic.Trim | src/components/OpenWalletForm/index.tsx:33 | `trim()` leaves no whitespace at either end |
| Mnemonic.Collapse | src/components/OpenWalletForm/index.tsx:33 | `replace(/\s+/g, ' ')` never lengthens, empties only the empty string, starts with a space exactly when the input starts with whitespace, and leaves only single spaces as whitespace |
| Strings.IndexOf | src/components/OpenWalletForm/index.tsx:34 | the position of the first occurrence of the separator, with none before it, or the length when it does not occur |
| Mnemonic.Split | src/components/OpenWalletForm/index.tsx:34 | `split(' ')` always yields at least one piece |
| Mnemonic.NonEmpty | src/components/OpenWalletForm/index.tsx:34 | `filter(word => word.length > 0)` keeps only non-empty pieces |
| Mnemonic.SplitCollapse | src/components/OpenWalletForm/index.tsx:33-34 | collapsing whitespace runs to one space, splitting on spaces and dropping empty pieces gives the maximal runs of non-whitespace |
| Mnemonic.RunsTrim | src/components/OpenWalletForm/index.tsx:33 | trimming changes no run |
| Mnemonic.Words | src/components/OpenWalletForm/index.tsx:33-34 | the words the form counts are exactly the maximal runs of non-whitespace of the input, and each is a non-empty whitespace-free word |
| Mnemonic.Clean | src/components/OpenWalletForm/index.tsx:33 | the cleaned phrase is the input's maximal non-whitespace runs joined by single spaces |
| Mnemonic.RunsOfJoin | src/components/OpenWalletForm/index.tsx:33-34 | words joined by single spaces split back into the same words |
| Mnemonic.CleanIdempotent | src/components/OpenWalletForm/index.tsx:33-34 | cleaning a cleaned phrase changes nothing, and the word list survives cleaning |
| Mnemonic.IsValid | src/components/OpenWalletForm/index.tsx:35 | a phrase is valid exactly when it has twelve maximal runs of non-whitespace |
| Mnemonic.ValidationMessage | src/components/OpenWalletForm/index.tsx:77-83 | the prompt exactly for no words, the valid text exactly for twelve, the invalid text exactly for more than twelve; otherwise the count in digits without a leading zero, followed by `/12 words` |
| Mnemonic.MessageFor | src/components/OpenWalletForm/index.tsx:77-83 | the form shows the prompt exactly when the input has no non-whitespace run, the valid text exactly for twelve runs, and the invalid text exactly for more than twelve |
| Mnemonic.OpenDisabled | src/components/OpenWalletForm/index.tsx:90 | the open button is disabled exactly when the input does not have twelve non-whitespace runs |
| Mnemonic.ButtonMatchesMessage | src/components/OpenWalletForm/index.tsx:76-91 | the open button is enabled exactly when the form shows the valid message |
| InvoiceLabel.DisplayInvoice | src/components/LightningInvoiceLabel/index.tsx:29-34 | up to 50 characters are shown whole; longer invoices show 53 characters, with `...` after 25, starting with the invoice's first 25 characters and ending with its last 25 |
| InvoiceLabel.DisplayIdempotent | src/components/LightningInvoiceLabel/index.tsx:29-34 | shortening a shortened invoice changes nothing |
| InvoiceLabel.LongInvoiceShortened | src/components/LightningInvoiceLabel/index.tsx:29-34 | an invoice over 50 characters is displayed differently, unless it has exactly 53 |
| InvoiceLabel.RenderLabel | src/components/LightningInvoiceLabel/index.tsx:18-38 | the label shows the display text while a tap copies the full invoice; the shown text is shorter once the invoice exceeds 53 characters |

## Left out

- Logging with `console.log`, React rendering, toasts, alerts, the clipboard and the camera are left out. They carry no logic.
- The BOLT11 decoder, `JSON.parse`, the bech32m library and `fetch` are parameters, because their code is not part of this model. The HTTP status, the network errors and the `AbortSignal` timeout are folded into the boolean that `fetch` returns.
- An absent `sections` array is modelled as an empty one. The three invoice functions treat the two cases the same.
- An `amount` section is copied whatever its value, because the decoder gives a decimal string, which is truthy even for `"0"`. Timestamps and expiries are numbers, so zero seconds count as absent.
- LightningInvoice.AmountMsatOf: `Number(value)` is exact here; the source rounds amounts above 2^53 millisatoshis to the nearest double.
- `descriptionHash` is always `None`, because the source never sets it.
- Dates are milliseconds since the epoch rather than `Date` objects.
- Header keys and values are any of string, boolean, integer, `null`, `undefined` or object, because the JSON is never validated. An object is told apart only by whether it has its own `toString` member. Fractional numbers and arrays are left out. Apart from `__proto__`, every key becomes a header of its own, because `Object.prototype` has no other setter; whether `fetch` accepts the name is part of the `fetch` parameter.
- RelayCall.HeaderText: a number of magnitude 2^53 or more gets no rendering contract, because JavaScript prints it rounded or in exponent form.
- A `JSON.parse` result of `null`, or a `relay` that cannot be read, is modelled as `None`. In the source both throw inside the inner `try`, which has the same effect.
- `asNumber` in `decodeTokenAmount` is left out, because it is floating point.
- TokenAmount.Uint128FromBytes: the little-endian `|=` is modelled as `+`. The shifted bytes occupy disjoint bits, so the two agree.
- TokenAmount.DecodeTokenAmount: `decimals` is a `nat`. A negative or fractional `decimals` makes `BigInt` throw in the source.
- Absent `opts` fields are modelled as `false`, which is what `!!undefined` and a falsy `autoDetect` give.
- The call site's `decodeTokenAmount(bytes, 6, { littleEndian: false }).formatted` is modelled by `DisplayedAmount`. When it throws, the source's render fails; the model returns the error.
- TokenStatus.StatusText: the status is an `int`. A non-integer number falls to `default` in the source and is not modelled. The explicit `case 10` gives the same text as `default`.
- Strings.Lower: only ASCII letters are lowercased. Unicode case mapping is not modelled.
- Lengths count Dafny characters (Unicode scalar values), not UTF-16 code units. This matters only for text outside the Basic Multilingual Plane.
- Network types other than mainnet and regtest are commented out in the source and are not modelled.
