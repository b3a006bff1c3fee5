/**
 * Lightning invoice helpers: the BOLT11 validity check, the relay
 * configuration carried in the description, and the invoice-details record.
 * The BOLT11 decoder and `JSON.parse` are parameters: `decode(invoice)` is
 * `None` when the decoder throws, `parseJson(text)` is `None` when parsing
 * throws or yields something whose `relay` cannot be read.
 */
module LightningInvoice {
  import opened Wrappers
  import opened Strings
  import opened RelayConfigs
  import RelayUrl

  /** The names of the five fields read here. */
  const FieldNames: set<string> := {"payment_hash", "amount", "description", "timestamp", "expiry"}

  /** The name of a field not read here. */
  type OtherName = name: string | name !in FieldNames witness ""

  /**
   * A tagged field of a decoded invoice. The decoder names the five fields
   * read here `payment_hash`, `amount` (millisatoshi), `description`,
   * `timestamp` and `expiry` (seconds); every other field is `Other`.
   */
  datatype Section =
    | PaymentHash(hash: string)
    | Amount(msat: nat)
    | Description(text: string)
    | Timestamp(seconds: nat)
    | Expiry(seconds: nat)
    | Other(name: OtherName)

  /** The field names `sections.find(s => s.name === …)` looks for. */
  datatype Field = PaymentHashField | AmountField | DescriptionField | TimestampField | ExpiryField

  predicate IsField(s: Section, f: Field) {
    match f
    case PaymentHashField => s.PaymentHash?
    case AmountField => s.Amount?
    case DescriptionField => s.Description?
    case TimestampField => s.Timestamp?
    case ExpiryField => s.Expiry?
  }

  /** The BOLT11 decoder: the sections of an invoice, or `None` when it throws. */
  type Decoder = string -> Option<seq<Section>>

  /** `sections.find(s => s.name === f)`: the first section of that field. */
  function Find(sections: seq<Section>, f: Field): (r: Option<Section>)
    ensures r.None? <==> forall i :: 0 <= i < |sections| ==> !IsField(sections[i], f)
    ensures r.Some? ==> exists i :: (0 <= i < |sections| && sections[i] == r.value && IsField(r.value, f)
      && forall j :: 0 <= j < i ==> !IsField(sections[j], f))
  {
    if sections == [] then None
    else if IsField(sections[0], f) then Some(sections[0])
    else
      var r := Find(sections[1..], f);
      assert forall i :: 0 < i < |sections| ==> sections[i] == sections[1..][i - 1];
      r
  }

  // ---------------------------------------------------------------------------
  // isValidLightningInvoice

  /** The lowercased invoice matches `^(lnbc|lntb|lnbcrt)`. */
  predicate HasInvoicePrefix(invoice: string) {
    var l := Lower(invoice);
    StartsWith(l, "lnbc") || StartsWith(l, "lntb") || StartsWith(l, "lnbcrt")
  }

  /** `lnbcrt` adds nothing: every string starting with it starts with `lnbc`. */
  lemma PrefixLnbcrtSubsumed(invoice: string)
    ensures HasInvoicePrefix(invoice) <==> StartsWith(Lower(invoice), "lnbc") || StartsWith(Lower(invoice), "lntb")
  {
    var l := Lower(invoice);
    if StartsWith(l, "lnbcrt") {
      assert l[..4] == l[..6][..4];
    }
  }

  /** `isValidLightningInvoice`: the prefix gate, then a decode that yields at least one section. */
  function IsValidLightningInvoice(invoice: string, decode: Decoder): (r: bool)
    ensures r <==> HasInvoicePrefix(invoice) && decode(invoice).Some? && |decode(invoice).value| > 0
  {
    if !HasInvoicePrefix(invoice) then false
    else
      match decode(invoice)
      case None => false
      case Some(sections) => |sections| > 0
  }

  /** Without the prefix the decoder is never consulted: every decoder gives false. */
  lemma PrefixGateIgnoresDecoder(invoice: string, d1: Decoder, d2: Decoder)
    requires !HasInvoicePrefix(invoice)
    ensures !IsValidLightningInvoice(invoice, d1) && !IsValidLightningInvoice(invoice, d2)
  {
  }

  // ---------------------------------------------------------------------------
  // parseLightningInvoiceMemo

  /** The description the parser works on: the first `description` section, when its text is non-empty. */
  function MemoText(sections: seq<Section>): (r: Option<string>)
    ensures r.Some? ==> r.value != [] && Find(sections, DescriptionField) == Some(Description(r.value))
    ensures r.None? ==> Find(sections, DescriptionField) in {None, Some(Description(""))}
  {
    match Find(sections, DescriptionField)
    case Some(Description(t)) => if t == [] then None else Some(t)
    case _ => None
  }

  /** The JSON route: the parsed object, unchanged, when its `relay` is a non-empty string. */
  function JsonRelay(obj: Option<JsonObject>): (r: Option<RelayConfig>)
    ensures r.Some? <==> obj.Some? && obj.value.relay.RelayString? && obj.value.relay.url != []
    ensures r.Some? ==> r.value == RelayConfig(obj.value.relay.url, obj.value.httpHeader)
  {
    match obj
    case Some(JsonObject(RelayString(url), header)) => if url != [] then Some(RelayConfig(url, header)) else None
    case _ => None
  }

  /** The relay configuration a description carries: JSON first, then the URL scan. */
  function MemoRelay(description: string, parseJson: string -> Option<JsonObject>): (r: Option<RelayConfig>)
    ensures JsonRelay(parseJson(description)).Some? ==> r == JsonRelay(parseJson(description))
    ensures JsonRelay(parseJson(description)).None? ==>
      match RelayUrl.FindRelayUrl(description)
      case None => r.None?
      case Some(url) => r == Some(RelayConfig(url, None))
    ensures r.Some? ==> r.value.relay != []
  {
    match JsonRelay(parseJson(description))
    case Some(config) => Some(config)
    case None =>
      match RelayUrl.FindRelayUrl(description)
      case None => None
      case Some(url) => assert StartsWith(url, "http://") || StartsWith(url, "https://"); Some(RelayConfig(url, None))
  }

  /** `parseLightningInvoiceMemo`: decoder failure, a missing or empty description, and no relay all give `None`. */
  function ParseLightningInvoiceMemo(invoice: string, decode: Decoder, parseJson: string -> Option<JsonObject>): (r: Option<RelayConfig>)
    ensures decode(invoice).None? ==> r.None?
    ensures decode(invoice).Some? && MemoText(decode(invoice).value).None? ==> r.None?
    ensures r.Some? ==> exists t :: decode(invoice).Some? && MemoText(decode(invoice).value) == Some(t) && r == MemoRelay(t, parseJson)
    ensures r.Some? && r.value.httpHeader.Some? ==> JsonRelay(parseJson(MemoText(decode(invoice).value).value)) == r
    ensures decode(invoice).Some? && MemoText(decode(invoice).value).Some? ==>
              r == MemoRelay(MemoText(decode(invoice).value).value, parseJson)
  {
    match decode(invoice)
    case None => None
    case Some(sections) =>
      match MemoText(sections)
      case None => None
      case Some(description) => MemoRelay(description, parseJson)
  }

  // ---------------------------------------------------------------------------
  // parseLightningInvoiceDetails

  /** `LightningInvoiceDetails`, with the two dates as milliseconds since the epoch. */
  datatype InvoiceDetails = InvoiceDetails(
    paymentHash: Option<string>,
    amount: Option<nat>,
    amountMsat: Option<nat>,
    description: Option<string>,
    descriptionHash: Option<string>,
    expiresAtMs: Option<nat>,
    createdAtMs: Option<nat>)

  /** The record with every field undefined (`{}`). */
  const NoDetails := InvoiceDetails(None, None, None, None, None, None, None)

  /**
   * The invariants every details record the extractor builds satisfies:
   * `amount` is the whole number of satoshis in `amountMsat`, dates are whole
   * seconds, and an expiry date exists only after a creation date.
   */
  predicate WellFormed(d: InvoiceDetails) {
    && (d.paymentHash.Some? ==> d.paymentHash.value != [])
    && (d.amountMsat.Some? <==> d.amount.Some?)
    && (d.amountMsat.Some? ==> d.amount.value == d.amountMsat.value / 1000)
    && d.descriptionHash.None?
    && (d.createdAtMs.Some? ==> d.createdAtMs.value > 0 && d.createdAtMs.value % 1000 == 0)
    && (d.expiresAtMs.Some? ==>
          d.createdAtMs.Some? && d.expiresAtMs.value % 1000 == 0 && d.expiresAtMs.value > d.createdAtMs.value)
  }

  /** `h` is the payment hash the sections give: the first `payment_hash` section's, when it is non-empty. */
  predicate HashIn(sections: seq<Section>, h: Option<string>) {
    var s := Find(sections, PaymentHashField);
    && (h.Some? <==> s.Some? && s.value.PaymentHash? && s.value.hash != [])
    && (h.Some? ==> s == Some(PaymentHash(h.value)))
  }

  /** `m` is the amount the sections give: the first `amount` section's, whatever its value. */
  predicate AmountIn(sections: seq<Section>, m: Option<nat>) {
    var s := Find(sections, AmountField);
    && (m.Some? <==> s.Some?)
    && (m.Some? ==> s == Some(Amount(m.value)))
  }

  /** `t` is the description the sections give: the first `description` section's, empty text included. */
  predicate DescriptionIn(sections: seq<Section>, t: Option<string>) {
    var s := Find(sections, DescriptionField);
    && (t.Some? <==> s.Some?)
    && (t.Some? ==> s == Some(Description(t.value)))
  }

  /** `c` is the creation date the sections give: the first `timestamp`, when non-zero, in milliseconds. */
  predicate CreatedIn(sections: seq<Section>, c: Option<nat>) {
    var ts := Find(sections, TimestampField);
    && (c.Some? <==> ts.Some? && ts.value.Timestamp? && ts.value.seconds > 0)
    && (c.Some? ==> c.value == ts.value.seconds * 1000)
  }

  /**
   * `e` is the expiry date the sections give: the first `timestamp` plus the
   * first `expiry`, in milliseconds, when both are non-zero.
   */
  predicate ExpiresIn(sections: seq<Section>, e: Option<nat>) {
    var ts := Find(sections, TimestampField);
    var ex := Find(sections, ExpiryField);
    && (e.Some? <==> ts.Some? && ts.value.Timestamp? && ts.value.seconds > 0
                     && ex.Some? && ex.value.Expiry? && ex.value.seconds > 0)
    && (e.Some? ==> e.value == (ts.value.seconds + ex.value.seconds) * 1000)
  }

  /**
   * `d` is the record the parser builds from `sections`, field by field: the
   * reference the extraction below is proved against.
   */
  predicate Extracts(sections: seq<Section>, d: InvoiceDetails) {
    && HashIn(sections, d.paymentHash)
    && AmountIn(sections, d.amountMsat)
    && d.amount == (if d.amountMsat.Some? then Some(d.amountMsat.value / 1000) else None)
    && DescriptionIn(sections, d.description)
    && d.descriptionHash.None?
    && CreatedIn(sections, d.createdAtMs)
    && ExpiresIn(sections, d.expiresAtMs)
  }

  /** The sections determine the record: at most one record is extracted from them. */
  lemma ExtractsUnique(sections: seq<Section>, d1: InvoiceDetails, d2: InvoiceDetails)
    requires Extracts(sections, d1) && Extracts(sections, d2)
    ensures d1 == d2
  {
  }

  /** The payment hash, when the first `payment_hash` section holds a non-empty one. */
  function PaymentHashOf(sections: seq<Section>): (r: Option<string>)
    ensures HashIn(sections, r)
  {
    match Find(sections, PaymentHashField)
    case Some(PaymentHash(h)) => if h == [] then None else Some(h)
    case _ => None
  }

  /**
   * The millisatoshi amount of the first `amount` section. The decoder gives
   * it as a decimal string, which is truthy even for `"0"`, so every amount
   * section is copied.
   */
  function AmountMsatOf(sections: seq<Section>): (r: Option<nat>)
    ensures AmountIn(sections, r)
  {
    match Find(sections, AmountField)
    case Some(Amount(m)) => Some(m)
    case _ => None
  }

  /** The text of the first `description` section, empty text included. */
  function DescriptionOf(sections: seq<Section>): (r: Option<string>)
    ensures DescriptionIn(sections, r)
  {
    match Find(sections, DescriptionField)
    case Some(Description(t)) => Some(t)
    case _ => None
  }

  /** The non-zero number a numeric section holds, or `None` (the JavaScript falsy `0` included). */
  function Seconds(s: Option<Section>): (r: Option<nat>)
    ensures r.Some? ==> r.value > 0
    ensures r.Some? <==> s.Some? && (s.value.Timestamp? || s.value.Expiry?) && s.value.seconds > 0
    ensures r.Some? ==> r.value == s.value.seconds
  {
    match s
    case Some(Timestamp(n)) => if n == 0 then None else Some(n)
    case Some(Expiry(n)) => if n == 0 then None else Some(n)
    case _ => None
  }

  /** `createdAt`: the first `timestamp`, when non-zero, in milliseconds. */
  function CreatedAtOf(sections: seq<Section>): (r: Option<nat>)
    ensures CreatedIn(sections, r)
    ensures r.Some? ==> r.value > 0 && r.value % 1000 == 0
  {
    var created := Seconds(Find(sections, TimestampField));
    if created.Some? then Some(created.value * 1000) else None
  }

  /** `expiresAt`: timestamp plus expiry, in milliseconds, when both are non-zero. */
  function ExpiresAtOf(sections: seq<Section>): (r: Option<nat>)
    ensures ExpiresIn(sections, r)
    ensures r.Some? ==> CreatedAtOf(sections).Some? && r.value % 1000 == 0 && r.value > CreatedAtOf(sections).value
  {
    ExpiryMillis(Seconds(Find(sections, TimestampField)), Seconds(Find(sections, ExpiryField)))
  }

  /** The expiry instant in milliseconds, from the creation and expiry seconds when both are present. */
  function ExpiryMillis(created: Option<nat>, expiry: Option<nat>): Option<nat> {
    if created.Some? && expiry.Some? then Some((created.value + expiry.value) * 1000) else None
  }

  /** The details record the decoded sections give. */
  function DetailsOf(sections: seq<Section>): (d: InvoiceDetails)
    ensures Extracts(sections, d)
    ensures WellFormed(d)
  {
    var amountMsat := AmountMsatOf(sections);
    InvoiceDetails(
      PaymentHashOf(sections),
      if amountMsat.Some? then Some(amountMsat.value / 1000) else None,
      amountMsat,
      DescriptionOf(sections),
      None,
      ExpiresAtOf(sections),
      CreatedAtOf(sections))
  }

  /** `parseLightningInvoiceDetails`: a decoder failure gives the empty record. */
  function ParseLightningInvoiceDetails(invoice: string, decode: Decoder): (d: InvoiceDetails)
    ensures WellFormed(d)
    ensures decode(invoice).None? ==> d == NoDetails
    ensures decode(invoice).Some? ==> Extracts(decode(invoice).value, d)
  {
    match decode(invoice)
    case None => NoDetails
    case Some(sections) => DetailsOf(sections)
  }

  /** A section of any other name, wherever the decoder puts it, changes nothing. */
  lemma OtherSectionIgnored(a: seq<Section>, b: seq<Section>, name: OtherName)
    ensures DetailsOf(a + [Other(name)] + b) == DetailsOf(a + b)
  {
    forall f: Field
      ensures Find(a + [Other(name)] + b, f) == Find(a + b, f)
    {
      FindAppend(a, [Other(name)], f);
      FindAppend(a + [Other(name)], b, f);
      FindAppend(a, b, f);
      FindOptional(Some(Other(name)), f);
      assert OptionalSection(Some(Other(name))) == [Other(name)];
    }
  }

  /**
   * The sections an invoice with details `d` carries, in the decoder's
   * order: the inverse of extraction.
   */
  function SectionsOf(d: InvoiceDetails): seq<Section>
    requires WellFormed(d)
  {
    OptionalSection(SectionFor(d, PaymentHashField))
    + OptionalSection(SectionFor(d, AmountField))
    + OptionalSection(SectionFor(d, DescriptionField))
    + OptionalSection(SectionFor(d, TimestampField))
    + OptionalSection(SectionFor(d, ExpiryField))
  }

  /** The section of field `f` that `SectionsOf(d)` holds, if any. */
  function SectionFor(d: InvoiceDetails, f: Field): Option<Section>
    requires WellFormed(d)
  {
    match f
    case PaymentHashField => if d.paymentHash.Some? then Some(PaymentHash(d.paymentHash.value)) else None
    case AmountField => if d.amountMsat.Some? then Some(Amount(d.amountMsat.value)) else None
    case DescriptionField => if d.description.Some? then Some(Description(d.description.value)) else None
    case TimestampField => if d.createdAtMs.Some? then Some(Timestamp(d.createdAtMs.value / 1000)) else None
    case ExpiryField =>
      if d.expiresAtMs.Some? then Some(Expiry((d.expiresAtMs.value - d.createdAtMs.value) / 1000)) else None
  }

  /** `SectionsOf(d)` holds each field at most once, so `find` returns that section. */
  lemma FindSectionsOf(d: InvoiceDetails, f: Field)
    requires WellFormed(d)
    ensures Find(SectionsOf(d), f) == SectionFor(d, f)
  {
    var ph := OptionalSection(SectionFor(d, PaymentHashField));
    var am := OptionalSection(SectionFor(d, AmountField));
    var de := OptionalSection(SectionFor(d, DescriptionField));
    var ts := OptionalSection(SectionFor(d, TimestampField));
    var ex := OptionalSection(SectionFor(d, ExpiryField));
    assert SectionsOf(d) == ph + am + de + ts + ex;
    FindChain(ph, am, de, ts, ex, f);
    FindOptional(SectionFor(d, PaymentHashField), f);
    FindOptional(SectionFor(d, AmountField), f);
    FindOptional(SectionFor(d, DescriptionField), f);
    FindOptional(SectionFor(d, TimestampField), f);
    FindOptional(SectionFor(d, ExpiryField), f);
  }

  /** The one-or-zero-element list of an optional section. */
  function OptionalSection(s: Option<Section>): seq<Section> {
    if s.Some? then [s.value] else []
  }

  lemma FindOptional(s: Option<Section>, f: Field)
    ensures Find(OptionalSection(s), f) == if s.Some? && IsField(s.value, f) then s else None
  {
    if s.Some? {
      assert OptionalSection(s)[1..] == [];
    }
  }

  /** The dates of a well-formed record, read back from its sections. */
  lemma DatesRoundTrip(d: InvoiceDetails)
    requires WellFormed(d)
    ensures CreatedAtOf(SectionsOf(d)) == d.createdAtMs
    ensures ExpiresAtOf(SectionsOf(d)) == d.expiresAtMs
  {
    CreatedRoundTrip(d);
    ExpiresRoundTrip(d);
  }

  lemma CreatedRoundTrip(d: InvoiceDetails)
    requires WellFormed(d)
    ensures CreatedAtOf(SectionsOf(d)) == d.createdAtMs
  {
    TimestampSeconds(d);
    if d.createdAtMs.Some? {
      WholeSeconds(d.createdAtMs.value, d.createdAtMs.value);
    }
  }

  lemma ExpiresRoundTrip(d: InvoiceDetails)
    requires WellFormed(d)
    ensures ExpiresAtOf(SectionsOf(d)) == d.expiresAtMs
  {
    TimestampSeconds(d);
    ExpirySeconds(d);
    if d.expiresAtMs.Some? {
      ExpiresFromSeconds(SectionsOf(d), d.createdAtMs.value, d.expiresAtMs.value);
    }
  }

  lemma ExpiresFromSeconds(sections: seq<Section>, c: nat, e: nat)
    requires c % 1000 == 0 && e % 1000 == 0 && c < e
    requires Seconds(Find(sections, TimestampField)) == Some(c / 1000)
    requires Seconds(Find(sections, ExpiryField)) == Some((e - c) / 1000)
    ensures ExpiresAtOf(sections) == Some(e)
  {
    WholeSeconds(c, e);
  }

  /** The seconds the `timestamp` section of `SectionsOf(d)` carries. */
  lemma TimestampSeconds(d: InvoiceDetails)
    requires WellFormed(d)
    ensures Seconds(Find(SectionsOf(d), TimestampField))
            == if d.createdAtMs.Some? then Some(d.createdAtMs.value / 1000) else None
  {
    FindSectionsOf(d, TimestampField);
  }

  /** The seconds the `expiry` section of `SectionsOf(d)` carries. */
  lemma ExpirySeconds(d: InvoiceDetails)
    requires WellFormed(d)
    ensures Seconds(Find(SectionsOf(d), ExpiryField))
            == if d.expiresAtMs.Some? then Some((d.expiresAtMs.value - d.createdAtMs.value) / 1000) else None
  {
    FindSectionsOf(d, ExpiryField);
    if d.expiresAtMs.Some? {
      WholeSeconds(d.createdAtMs.value, d.expiresAtMs.value);
      var n := (d.expiresAtMs.value - d.createdAtMs.value) / 1000;
      assert Find(SectionsOf(d), ExpiryField) == Some(Expiry(n));
    }
  }

  /** Whole-second millisecond counts survive the trip through seconds. */
  lemma WholeSeconds(c: nat, e: nat)
    requires c % 1000 == 0 && e % 1000 == 0 && c <= e
    ensures (c / 1000) * 1000 == c
    ensures (c / 1000 + (e - c) / 1000) * 1000 == e
    ensures 0 < c ==> c / 1000 > 0
    ensures c < e ==> (e - c) / 1000 > 0
  {
  }

  /** Extraction recovers every well-formed details record from its sections. */
  lemma DetailsRoundTrip(d: InvoiceDetails)
    requires WellFormed(d)
    ensures DetailsOf(SectionsOf(d)) == d
  {
    var ss := SectionsOf(d);
    FindSectionsOf(d, PaymentHashField);
    FindSectionsOf(d, AmountField);
    FindSectionsOf(d, DescriptionField);
    assert PaymentHashOf(ss) == d.paymentHash;
    assert AmountMsatOf(ss) == d.amountMsat;
    assert DescriptionOf(ss) == d.description;
    DatesRoundTrip(d);
  }

  /** `find` over five consecutive parts. */
  lemma FindChain(a: seq<Section>, b: seq<Section>, c: seq<Section>, d: seq<Section>, e: seq<Section>, f: Field)
    ensures Find(a + b + c + d + e, f) ==
      if Find(a, f).Some? then Find(a, f)
      else if Find(b, f).Some? then Find(b, f)
      else if Find(c, f).Some? then Find(c, f)
      else if Find(d, f).Some? then Find(d, f)
      else Find(e, f)
  {
    FindAppend(a, b, f);
    FindAppend(a + b, c, f);
    FindAppend(a + b + c, d, f);
    FindAppend(a + b + c + d, e, f);
  }

  /** `find` on a concatenation looks in the second part only when the first has no match. */
  lemma {:induction false} FindAppend(a: seq<Section>, b: seq<Section>, f: Field)
    ensures Find(a + b, f) == if Find(a, f).Some? then Find(a, f) else Find(b, f)
  {
    if a != [] {
      assert (a + b)[0] == a[0];
      assert (a + b)[1..] == a[1..] + b;
      FindAppend(a[1..], b, f);
    } else {
      assert a + b == b;
    }
  }
}
