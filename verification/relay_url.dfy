/**
 * The fallback relay discovery of the memo parser: every global match of
 * the regular expression `https?:\/\/[^\s"']+` in the description, scanned
 * left to right, and the first of them that mentions a relay endpoint.
 */
module RelayUrl {
  import opened Wrappers
  import opened Strings

  /** A match `s[start..end]`. */
  datatype Span = Span(start: nat, end: nat)

  /**
   * The class `[^\s"']`: printable ASCII other than the two quotes belongs;
   * the space, the two quotes and the other ASCII whitespace do not.
   */
  function IsUrlChar(c: char): (b: bool)
    ensures '!' <= c <= '~' ==> (b <==> c != '"' && c != '\'')
    ensures c in " \t\n\r\"'" ==> !b
  {
    !IsWhitespace(c) && c != '"' && c != '\''
  }

  /** The length of the scheme `https?://` at offset `i`, 0 when there is none. */
  function SchemeLength(s: string, i: nat): (n: nat)
    requires i <= |s|
    ensures n == 0 || n == 7 || n == 8
    ensures n == 8 <==> StartsWith(s[i..], "https://")
    ensures n == 7 <==> StartsWith(s[i..], "http://")
  {
    assert StartsWith(s[i..], "https://") ==> s[i..][4] == 's';
    if StartsWith(s[i..], "https://") then 8
    else if StartsWith(s[i..], "http://") then 7
    else 0
  }

  /** The end of the run of `[^\s"']` characters that starts at `j`. */
  function RunEnd(s: string, j: nat): (e: nat)
    requires j <= |s|
    ensures j <= e <= |s|
    ensures forall k :: j <= k < e ==> IsUrlChar(s[k])
    ensures e == |s| || !IsUrlChar(s[e])
    decreases |s| - j
  {
    if j == |s| || !IsUrlChar(s[j]) then j else RunEnd(s, j + 1)
  }

  /**
   * `s[i..e]` is what the regular expression matches when it is tried at
   * offset `i`: a scheme, at least one further character, every character
   * in the class, and the run as long as it can be (the quantifier is greedy).
   */
  ghost predicate IsMatch(s: string, i: int, e: int) {
    && 0 <= i < e <= |s|
    && ((StartsWith(s[i..], "http://") && i + 7 < e) || (StartsWith(s[i..], "https://") && i + 8 < e))
    && (forall k :: i <= k < e ==> IsUrlChar(s[k]))
    && (e == |s| || !IsUrlChar(s[e]))
  }

  /** Trying the regular expression at offset `i`: the end of the match, if any. */
  function MatchAt(s: string, i: nat): (r: Option<nat>)
    requires i <= |s|
    ensures r.Some? ==> IsMatch(s, i, r.value)
    ensures r.None? ==> forall e :: !IsMatch(s, i, e)
  {
    var n := SchemeLength(s, i);
    if n == 0 then
      None
    else
      var scheme := if n == 8 then "https://" else "http://";
      assert forall k :: i <= k < i + n ==> s[k] == scheme[k - i];
      assert forall c :: c in scheme ==> IsUrlChar(c);
      var e := RunEnd(s, i + n);
      if e > i + n then Some(e) else None
  }

  /** A match, once started, ends at one place only. */
  lemma MatchUnique(s: string, i: int, e1: int, e2: int)
    requires IsMatch(s, i, e1) && IsMatch(s, i, e2)
    ensures e1 == e2
  {
  }

  /** No match starts at an offset in `[a, b)`. */
  ghost predicate NoMatchIn(s: string, a: int, b: int) {
    forall p :: a <= p < b && 0 <= p <= |s| ==> MatchAt(s, p).None?
  }

  /**
   * `ms` is the list of matches a global search resumed at offset `from`
   * finds: each a match, in order, each search resuming where the previous
   * match ended, and no match left out in between or after the last.
   */
  ghost predicate IsScan(s: string, from: int, ms: seq<Span>) {
    && (forall k :: 0 <= k < |ms| ==> from <= ms[k].start && IsMatch(s, ms[k].start, ms[k].end))
    && (forall k :: 0 < k < |ms| ==> ms[k - 1].end <= ms[k].start && NoMatchIn(s, ms[k - 1].end, ms[k].start))
    && (ms == [] ==> NoMatchIn(s, from, |s| + 1))
    && (ms != [] ==> NoMatchIn(s, from, ms[0].start) && NoMatchIn(s, ms[|ms| - 1].end, |s| + 1))
  }

  /** A match at `from` followed by the scan resumed at its end is the scan from `from`. */
  lemma ScanCons(s: string, from: nat, e: nat, rest: seq<Span>)
    requires from < |s| && IsMatch(s, from, e) && IsScan(s, e, rest)
    ensures IsScan(s, from, [Span(from, e)] + rest)
  {
    var ms := [Span(from, e)] + rest;
    forall k | 0 < k < |ms|
      ensures ms[k - 1].end <= ms[k].start && NoMatchIn(s, ms[k - 1].end, ms[k].start)
    {
      assert ms[k] == rest[k - 1];
      if k > 1 {
        assert ms[k - 1] == rest[k - 2];
      }
    }
  }

  /** An offset where no match starts adds nothing to the scan. */
  lemma ScanSkip(s: string, from: nat, rest: seq<Span>)
    requires from < |s| && MatchAt(s, from).None? && IsScan(s, from + 1, rest)
    ensures IsScan(s, from, rest)
  {
  }

  /** `description.match(/https?:\/\/[^\s"']+/g)`, searched from offset `from`. */
  function Matches(s: string, from: nat): (ms: seq<Span>)
    requires from <= |s|
    ensures IsScan(s, from, ms)
    ensures forall m :: m in ms ==> m.start < m.end <= |s|
    ensures forall k :: 0 <= k < |ms| ==> ms[k].start < ms[k].end <= |s|
    decreases |s| - from
  {
    if from == |s| then
      assert MatchAt(s, |s|).None?;
      []
    else
      match MatchAt(s, from)
      case Some(e) =>
        var rest := Matches(s, e);
        ScanCons(s, from, e, rest);
        [Span(from, e)] + rest
      case None =>
        var rest := Matches(s, from + 1);
        ScanSkip(s, from, rest);
        rest
  }

  /** The text of a match. */
  function SpanText(s: string, m: Span): string
    requires m.start <= m.end <= |s|
  {
    s[m.start..m.end]
  }

  /** The URL mentions `/relay`, `/callback` or `/webhook`. */
  predicate HasRelayMarker(url: string) {
    Includes(url, "/relay") || Includes(url, "/callback") || Includes(url, "/webhook")
  }

  /** The first of the matches `ms` whose text carries a relay marker. */
  function FirstMarked(s: string, ms: seq<Span>): (r: Option<nat>)
    requires forall k :: 0 <= k < |ms| ==> ms[k].start <= ms[k].end <= |s|
    ensures r.Some? ==> r.value < |ms| && HasRelayMarker(SpanText(s, ms[r.value]))
    ensures r.Some? ==> forall k :: 0 <= k < r.value ==> !HasRelayMarker(SpanText(s, ms[k]))
    ensures r.None? ==> forall k :: 0 <= k < |ms| ==> !HasRelayMarker(SpanText(s, ms[k]))
  {
    if ms == [] then None
    else if HasRelayMarker(SpanText(s, ms[0])) then Some(0)
    else
      match FirstMarked(s, ms[1..])
      case None => None
      case Some(k) => Some(k + 1)
  }

  /** `u` is the text of some match in `ms` with no marked match before it. */
  predicate FirstMarkedText(s: string, ms: seq<Span>, u: string)
    requires forall k :: 0 <= k < |ms| ==> ms[k].start <= ms[k].end <= |s|
  {
    exists k :: 0 <= k < |ms| && SpanText(s, ms[k]) == u
                && forall j :: 0 <= j < k ==> !HasRelayMarker(SpanText(s, ms[j]))
  }

  /**
   * The relay URL the description names, if any: the first match of the
   * regular expression, left to right, that carries a relay marker.
   */
  function FindRelayUrl(description: string): (r: Option<string>)
    ensures r.Some? ==> StartsWith(r.value, "http://") || StartsWith(r.value, "https://")
    ensures r.Some? ==> forall k :: 0 <= k < |r.value| ==> IsUrlChar(r.value[k])
    ensures r.Some? ==> HasRelayMarker(r.value)
    ensures r.Some? ==> exists m :: m in Matches(description, 0) && SpanText(description, m) == r.value
    ensures r.Some? ==> FirstMarkedText(description, Matches(description, 0), r.value)
    ensures r.None? ==> forall m :: m in Matches(description, 0) ==> !HasRelayMarker(SpanText(description, m))
  {
    var ms := Matches(description, 0);
    match FirstMarked(description, ms)
    case None => None
    case Some(k) =>
      MatchText(description, ms[k]);
      Some(SpanText(description, ms[k]))
  }

  /** The text of a match starts with the scheme and holds only characters of the class. */
  lemma MatchText(s: string, m: Span)
    requires IsMatch(s, m.start, m.end)
    ensures var u := SpanText(s, m);
            (StartsWith(u, "http://") || StartsWith(u, "https://"))
            && forall k :: 0 <= k < |u| ==> IsUrlChar(u[k])
  {
    var u := SpanText(s, m);
    assert forall j :: 0 <= j < |u| ==> u[j] == s[m.start + j];
    assert u[..7] == s[m.start..][..7];
    assert u[..8] == s[m.start..][..8];
  }
}
