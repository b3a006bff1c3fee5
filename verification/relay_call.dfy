/**
 * The relay notification: the request `makeRelayHttpCall` builds and the
 * decision `processLightningPaymentRelay` makes after a payment attempt.
 * `fetch` is a parameter that answers whether the endpoint replied with a
 * 2xx status within the timeout; a network error or timeout is `false`.
 */
module RelayCall {
  import opened Wrappers
  import opened RelayConfigs
  import Decimal
  import JsonString
  import LightningInvoice

  const ContentTypeKey := "Content-Type"
  const UserAgentKey := "User-Agent"
  const ContentType := "application/json"
  const UserAgent := "Spark-RN-App/1.0.0"
  const Method := "POST"
  /** `AbortSignal.timeout(10000)` */
  const TimeoutMs: nat := 10000

  /** The bound below which every integer is a safe JavaScript number, 2^53. */
  const SafeIntegerBound: int := 0x20_0000_0000_0000

  /**
   * The key whose assignment reaches the inherited `__proto__` setter; that
   * setter ignores a string, so no header is added under it.
   */
  const ProtoKey := "__proto__"

  /**
   * `String(value)`, which is also how a value becomes a property key. It is
   * `None` where JavaScript throws a `TypeError`: for an object whose own
   * `toString` member hides the inherited one, neither `toString` nor the
   * inherited `valueOf` yields a primitive.
   */
  function HeaderText(v: HeaderValue): (r: Option<string>)
    ensures r.None? <==> v.HeaderObject? && v.ownToString
    ensures v.HeaderString? ==> r == Some(v.s)
    ensures v.HeaderBool? ==> r == Some(if v.b then "true" else "false")
    ensures v.HeaderNumber? && -SafeIntegerBound < v.n < SafeIntegerBound ==> r == Some(Decimal.IntToString(v.n))
    ensures v.HeaderNull? ==> r == Some("null")
    ensures v.HeaderUndefined? ==> r == Some("undefined")
    ensures v.HeaderObject? && !v.ownToString ==> r == Some("[object Object]")
  {
    match v
    case HeaderString(s) => Some(s)
    case HeaderBool(b) => Some(if b then "true" else "false")
    case HeaderNumber(n) => Some(Decimal.IntToString(n))
    case HeaderNull => Some("null")
    case HeaderUndefined => Some("undefined")
    case HeaderObject(ownToString) => if ownToString then None else Some("[object Object]")
  }

  /** The two headers every request carries. */
  const FixedHeaders: map<string, string> := map[ContentTypeKey := ContentType, UserAgentKey := UserAgent]

  /**
   * The `headers` record: the two fixed headers, then the custom one, which
   * wins on a shared key. `None` where rendering the custom key or value
   * throws; a key rendering as `__proto__` adds nothing.
   */
  function Headers(config: RelayConfig): (h: Option<map<string, string>>)
    ensures config.httpHeader.None? ==> h == Some(FixedHeaders)
    ensures config.httpHeader.Some? ==>
              var key := HeaderText(config.httpHeader.value.key);
              var value := HeaderText(config.httpHeader.value.value);
              && (h.None? <==> key.None? || value.None?)
              && (h.Some? && key.value != ProtoKey ==> key.value in h.value && h.value[key.value] == value.value)
              && (h.Some? && key.value == ProtoKey ==> h.value == FixedHeaders)
    ensures h.Some? ==> ContentTypeKey in h.value && UserAgentKey in h.value && ProtoKey !in h.value && |h.value| <= 3
    ensures h.Some? ==> forall k :: k in h.value ==>
              (k == ContentTypeKey || k == UserAgentKey
               || (config.httpHeader.Some? && HeaderText(config.httpHeader.value.key) == Some(k)))
    ensures h.Some? && (config.httpHeader.None? || HeaderText(config.httpHeader.value.key) != Some(ContentTypeKey)) ==>
              h.value[ContentTypeKey] == ContentType
    ensures h.Some? && (config.httpHeader.None? || HeaderText(config.httpHeader.value.key) != Some(UserAgentKey)) ==>
              h.value[UserAgentKey] == UserAgent
  {
    match config.httpHeader
    case None => Some(FixedHeaders)
    case Some(HttpHeader(key, value)) =>
      match (HeaderText(key), HeaderText(value))
      case (Some(k), Some(v)) =>
        if k == ProtoKey then Some(FixedHeaders)
        else
          var h := FixedHeaders[k := v];
          assert h.Keys == {ContentTypeKey, UserAgentKey} + {k};
          Some(h)
      case _ => None
  }

  /** The `invoice` member of the notification body: the invoice on success, `false` on failure. */
  datatype InvoiceField = PaidInvoice(invoice: string) | PaymentFailed

  /**
   * `JSON.stringify({ invoice: … })`: one object whose `invoice` member is
   * the literal `false` exactly on failure and a JSON string otherwise.
   */
  function BodyJson(f: InvoiceField): (r: string)
    ensures |r| > |BodyPrefix| && r[..|BodyPrefix|] == BodyPrefix && r[|r| - 1] == '}'
    ensures f.PaymentFailed? <==> r[|BodyPrefix|..] == "false}"
    ensures f.PaidInvoice? ==> r[|BodyPrefix|] == '"'
  {
    match f
    case PaidInvoice(s) =>
      var r := BodyPrefix + JsonString.Quote(s) + "}";
      assert r[|BodyPrefix|..][0] == '"' != "false}"[0];
      r
    case PaymentFailed => "{\"invoice\":false}"
  }

  const BodyPrefix := "{\"invoice\":"

  /** Reads a body back: the receiving side of the notification. */
  function ParseBody(t: string): Option<InvoiceField> {
    if |t| < |BodyPrefix| || t[..|BodyPrefix|] != BodyPrefix then None
    else
      var rest := t[|BodyPrefix|..];
      if rest == "false}" then Some(PaymentFailed)
      else if rest == [] || rest[0] != '"' then None
      else
        match JsonString.ReadString(rest[1..])
        case Some((s, "}")) => Some(PaidInvoice(s))
        case _ => None
  }

  /** The receiver reads back exactly the outcome the body was built from. */
  lemma BodyRoundTrip(f: InvoiceField)
    ensures ParseBody(BodyJson(f)) == Some(f)
  {
    if f.PaidInvoice? {
      var e := JsonString.Escape(f.invoice);
      var rest := "\"" + (e + "\"" + "}");
      assert BodyJson(f) == BodyPrefix + rest;
      AfterPrefix(rest);
      assert rest[1..] == e + "\"" + "}";
      JsonString.QuoteRoundTrip(f.invoice, "}");
    } else {
      AfterPrefix("false}");
    }
  }

  lemma AfterPrefix(rest: string)
    ensures var t := BodyPrefix + rest;
            |t| >= |BodyPrefix| && t[..|BodyPrefix|] == BodyPrefix && t[|BodyPrefix|..] == rest
  {
  }

  /** The request `fetch(config.relay, requestOptions)` receives. */
  datatype RelayRequest = RelayRequest(
    url: string,
    httpMethod: string,
    headers: map<string, string>,
    body: Option<string>,
    timeoutMs: nat)

  /**
   * The request for a configuration and an optional body (`undefined` leaves
   * the body out); `None` where building the headers throws.
   */
  function RequestFor(config: RelayConfig, body: Option<InvoiceField>): (r: Option<RelayRequest>)
    ensures r.None? <==> Headers(config).None?
    ensures r.Some? ==> r.value.url == config.relay && r.value.httpMethod == Method && r.value.timeoutMs == TimeoutMs
    ensures r.Some? ==> r.value.headers == Headers(config).value
    ensures r.Some? ==> (r.value.body.None? <==> body.None?)
    ensures r.Some? && body.Some? ==> ParseBody(r.value.body.value) == body
  {
    match Headers(config)
    case None => None
    case Some(headers) =>
      match body
      case None => Some(RelayRequest(config.relay, Method, headers, None, TimeoutMs))
      case Some(f) =>
        BodyRoundTrip(f);
        Some(RelayRequest(config.relay, Method, headers, Some(BodyJson(f)), TimeoutMs))
  }

  /** What a relay step did: the request it sent, if any, and the boolean it returned. */
  datatype RelayOutcome = RelayOutcome(sent: Option<RelayRequest>, ok: bool)

  /**
   * `makeRelayHttpCall`: at most one request, whose success is the result.
   * A throw while building the headers is caught before `fetch`, giving false.
   */
  function MakeRelayHttpCall(config: RelayConfig, body: Option<InvoiceField>, fetch: RelayRequest -> bool): (o: RelayOutcome)
    ensures o.sent == RequestFor(config, body)
    ensures o.sent.None? <==> Headers(config).None?
    ensures o.sent.None? ==> !o.ok
    ensures o.sent.Some? ==> o.sent.value.url == config.relay && o.ok == fetch(o.sent.value)
  {
    match RequestFor(config, body)
    case None => RelayOutcome(None, false)
    case Some(request) => RelayOutcome(Some(request), fetch(request))
  }

  /**
   * `processLightningPaymentRelay`: without a relay configuration nothing is
   * sent and the result is true; otherwise one request carrying the payment
   * outcome is sent and its success is the result, unless its headers cannot
   * be built, in which case nothing is sent and the result is false.
   */
  function ProcessLightningPaymentRelay(
    invoice: string, paymentSuccess: bool,
    decode: LightningInvoice.Decoder, parseJson: string -> Option<JsonObject>,
    fetch: RelayRequest -> bool): (o: RelayOutcome)
    ensures var memo := LightningInvoice.ParseLightningInvoiceMemo(invoice, decode, parseJson);
      && (memo.None? ==> o.sent.None? && o.ok)
      && (memo.Some? ==>
            && (o.sent.None? <==> Headers(memo.value).None?)
            && (o.sent.None? ==> !o.ok)
            && (o.sent.Some? ==>
                  o.sent.value.url == memo.value.relay && o.sent.value.headers == Headers(memo.value).value
                  && o.ok == fetch(o.sent.value)))
    ensures o.sent.Some? ==>
      (o.sent.value.body.Some?
       && ParseBody(o.sent.value.body.value) == Some(if paymentSuccess then PaidInvoice(invoice) else PaymentFailed))
  {
    match LightningInvoice.ParseLightningInvoiceMemo(invoice, decode, parseJson)
    case None => RelayOutcome(None, true)
    case Some(config) =>
      MakeRelayHttpCall(config, Some(if paymentSuccess then PaidInvoice(invoice) else PaymentFailed), fetch)
  }

  /** A custom header named `__proto__` leaves only the two fixed headers. */
  lemma ProtoKeyAddsNoHeader(relay: string, key: HeaderValue, value: HeaderValue)
    requires HeaderText(key) == Some(ProtoKey) && HeaderText(value).Some?
    ensures Headers(RelayConfig(relay, Some(HttpHeader(key, value)))) == Some(FixedHeaders)
  {
  }

  /** A custom key or value whose `String()` throws means no request and the result false. */
  lemma ThrowingHeaderSendsNothing(config: RelayConfig, body: Option<InvoiceField>, fetch: RelayRequest -> bool)
    requires config.httpHeader.Some?
    requires config.httpHeader.value.key == HeaderObject(true) || config.httpHeader.value.value == HeaderObject(true)
    ensures MakeRelayHttpCall(config, body, fetch) == RelayOutcome(None, false)
  {
  }

  /** On a failed payment the body is the literal `{"invoice":false}`, whatever the invoice. */
  lemma FailureBodyIsConstant(invoice: string, decode: LightningInvoice.Decoder,
    parseJson: string -> Option<JsonObject>, fetch: RelayRequest -> bool)
    ensures var sent := ProcessLightningPaymentRelay(invoice, false, decode, parseJson, fetch).sent;
            sent.Some? ==> sent.value.body == Some("{\"invoice\":false}")
  {
  }
}
