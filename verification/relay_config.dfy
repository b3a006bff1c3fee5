/**
 * The relay configuration an invoice description may carry, and the shape
 * of the JSON object the description is parsed into.
 */
module RelayConfigs {
  import opened Wrappers

  /**
   * A member of the parsed custom header, which nothing validates: a string,
   * a boolean, an integer-valued number, `null`, a missing member
   * (`undefined`) or an object. For an object, what matters is whether it has
   * an own `toString` member: JSON holds no functions, so such a member is
   * never callable and hides the inherited `Object.prototype.toString`.
   */
  datatype HeaderValue =
    | HeaderString(s: string)
    | HeaderBool(b: bool)
    | HeaderNumber(n: int)
    | HeaderNull
    | HeaderUndefined
    | HeaderObject(ownToString: bool)

  /**
   * The custom header `{ key, value }` a relay configuration may name. A
   * truthy `httpHeader` that is not an object has neither member, so it is
   * `HttpHeader(HeaderUndefined, HeaderUndefined)`; a falsy one is no header.
   */
  datatype HttpHeader = HttpHeader(key: HeaderValue, value: HeaderValue)

  /** `RelayConfig`: the URL to notify and an optional extra header. */
  datatype RelayConfig = RelayConfig(relay: string, httpHeader: Option<HttpHeader>)

  /** The `relay` member of a parsed JSON object: a string, or anything else (absent included). */
  datatype JsonRelay = RelayString(url: string) | RelayNotString

  /**
   * The object `JSON.parse` yields for a description, reduced to the two
   * members the parser reads. A parse that throws, or yields `null`, is `None`
   * at the parser's interface.
   */
  datatype JsonObject = JsonObject(relay: JsonRelay, httpHeader: Option<HttpHeader>)
}
