/**
 * `normalizeUrl` (src/lib/utils/url.ts): trims the input, rejects any scheme
 * other than http/https, assumes `https://` when no scheme is written, and
 * returns the URL parser's serialization.
 *
 * The URL parser itself (the WHATWG URL Standard, section 4.4 "URL parsing"
 * and section 4.5 "URL serializing") is not re-implemented: it is a parameter,
 * a partial function from strings to parsed URL records.
 */
module Url {
  import opened Wrappers
  import opened JsString

  /** The two parts of a parsed URL the code reads: `protocol` and `toString()`. */
  datatype ParsedUrl = ParsedUrl(protocol: string, href: string)

  /** `new URL(s)`: `None` where the constructor throws. */
  type UrlParser = string -> Option<ParsedUrl>

  const UrlRequired := "URL is required"
  const OnlyHttpAllowed := "Only http and https URLs are allowed"
  const InvalidUrl := "Enter a valid URL"

  /** Characters allowed after the first letter of a scheme (section 3.1 of RFC 3986). */
  predicate IsSchemeChar(c: char) {
    IsAsciiLetter(c) || IsAsciiDigit(c) || c == '+' || c == '-' || c == '.'
  }

  /** `x` is a scheme name: a letter followed by letters, digits, `+`, `-` or `.`. */
  predicate IsScheme(x: string) {
    |x| >= 1 && IsAsciiLetter(x[0]) && forall j | 1 <= j < |x| :: IsSchemeChar(x[j])
  }

  /** Scans scheme characters from index `k`, returning the index of the closing `:`. */
  function ScanScheme(s: string, k: nat): (r: Option<nat>)
    requires k <= |s|
    ensures r.Some? ==> k <= r.value < |s| && s[r.value] == ':'
    decreases |s| - k
  {
    if k == |s| then None
    else if s[k] == ':' then Some(k)
    else if IsSchemeChar(s[k]) then ScanScheme(s, k + 1)
    else None
  }

  /** Index of the `:` that ends a leading scheme, as `/^[a-zA-Z][a-zA-Z\d+\-.]*:/` matches it. */
  function SchemeColon(s: string): (r: Option<nat>)
    ensures r.Some? ==> 1 <= r.value < |s| && s[r.value] == ':'
  {
    if |s| > 0 && IsAsciiLetter(s[0]) then ScanScheme(s, 1) else None
  }

  predicate HasScheme(s: string) {
    SchemeColon(s).Some?
  }

  lemma {:induction false} ScanSchemeFinds(s: string, i: nat, k: nat)
    requires i <= |s|
    ensures ScanScheme(s, i) == Some(k) <==>
              (i <= k < |s| && s[k] == ':' && forall j | i <= j < k :: IsSchemeChar(s[j]))
    decreases |s| - i
  {
    if i < |s| && s[i] != ':' && IsSchemeChar(s[i]) {
      ScanSchemeFinds(s, i + 1, k);
    }
  }

  /**
   * The partner of `SchemeColon`: it finds `k` exactly when the text before
   * index `k` is a scheme name and a colon stands at `k`.
   */
  lemma SchemeColonIff(s: string, k: nat)
    ensures SchemeColon(s) == Some(k) <==> (1 <= k < |s| && s[k] == ':' && IsScheme(s[..k]))
  {
    if |s| > 0 && IsAsciiLetter(s[0]) {
      ScanSchemeFinds(s, 1, k);
      if 1 <= k < |s| && s[k] == ':' && IsScheme(s[..k]) {
        assert forall j | 1 <= j < k :: IsSchemeChar(s[j]) by {
          forall j | 1 <= j < k ensures IsSchemeChar(s[j]) {
            assert s[..k][j] == s[j];
          }
        }
      }
      if ScanScheme(s, 1) == Some(k) {
        assert forall j | 1 <= j < k :: IsSchemeChar(s[..k][j]) by {
          forall j | 1 <= j < k ensures IsSchemeChar(s[..k][j]) {
            assert s[..k][j] == s[j];
          }
        }
      }
    }
  }

  function AsciiLowerAll(s: string): (r: string)
    ensures |r| == |s|
  {
    seq(|s|, i requires 0 <= i < |s| => AsciiLower(s[i]))
  }

  /** `/^https?:/i`: the string starts with `http:` or `https:`, ignoring ASCII case. */
  predicate StartsWithHttpScheme(s: string) {
    && |s| >= 5
    && AsciiLower(s[0]) == 'h' && AsciiLower(s[1]) == 't'
    && AsciiLower(s[2]) == 't' && AsciiLower(s[3]) == 'p'
    && (s[4] == ':' || (|s| >= 6 && AsciiLower(s[4]) == 's' && s[5] == ':'))
  }

  predicate IsHttpProtocol(protocol: string) {
    protocol == "http:" || protocol == "https:"
  }

  /** `w` parses to a URL of protocol `http:`/`https:` whose serialization is `href`. */
  predicate ParsesToHttp(parse: UrlParser, w: string, href: string) {
    parse(w).Some? && IsHttpProtocol(parse(w).value.protocol) && parse(w).value.href == href
  }

  /** The checks after `new URL` succeeds or throws (url.ts:15-27). */
  function CheckParsed(parsed: Option<ParsedUrl>): Result<string, string> {
    match parsed
    case None => Err(InvalidUrl)
    case Some(u) =>
      if u.protocol != "http:" && u.protocol != "https:" then Err(OnlyHttpAllowed)
      else Ok(u.href)
  }

  /**
   * The checks `normalizeUrl` applies to its trimmed input (url.ts:4-26);
   * an `Err` carries the message of the `Error` it throws.
   */
  function NormalizeTrimmed(t: string, parse: UrlParser): (r: Result<string, string>)
    // emptiness is the one and only reason for "URL is required"
    ensures r == Err(UrlRequired) <==> |t| == 0
    // a written scheme other than http/https is refused before parsing
    ensures HasScheme(t) && !StartsWithHttpScheme(t) ==> r == Err(OnlyHttpAllowed)
    // a written scheme is parsed as is, a missing one becomes https://
    ensures r.Ok? && HasScheme(t) ==> ParsesToHttp(parse, t, r.value)
    ensures r.Ok? && !HasScheme(t) ==> ParsesToHttp(parse, "https://" + t, r.value)
    // a parse failure is reported as an invalid URL
    ensures |t| > 0 && !HasScheme(t) && parse("https://" + t).None? ==> r == Err(InvalidUrl)
    ensures StartsWithHttpScheme(t) && HasScheme(t) && parse(t).None? ==> r == Err(InvalidUrl)
    // once parsed, an http/https URL gives its serialization and any other protocol is refused
    ensures |t| > 0 && (HasScheme(t) ==> StartsWithHttpScheme(t)) && parse(ParseTarget(t)).Some? ==>
              var u := parse(ParseTarget(t)).value;
              r == if IsHttpProtocol(u.protocol) then Ok(u.href) else Err(OnlyHttpAllowed)
    // so an error after the scheme checks means the parse failed or gave another protocol
    ensures |t| > 0 && (HasScheme(t) ==> StartsWithHttpScheme(t)) && r.Err? ==>
              parse(ParseTarget(t)).None? || !IsHttpProtocol(parse(ParseTarget(t)).value.protocol)
    ensures r.Err? ==> r.error == UrlRequired || r.error == OnlyHttpAllowed || r.error == InvalidUrl
  {
    if |t| == 0 then Err(UrlRequired)
    else if HasScheme(t) && !StartsWithHttpScheme(t) then Err(OnlyHttpAllowed)
    else if HasScheme(t) then CheckParsed(parse(t))
    else CheckParsed(parse("https://" + t))
  }

  /** `normalizeUrl(rawValue)`: trims, then applies the checks above. */
  function NormalizeUrl(raw: string, parse: UrlParser): (r: Result<string, string>)
    ensures r == Err(UrlRequired) <==> |Trim(raw)| == 0
    ensures r.Ok? ==> ParsesToHttp(parse, ParseTarget(Trim(raw)), r.value)
  {
    NormalizeTrimmed(Trim(raw), parse)
  }

  /** An input without surrounding white space goes to the checks unchanged. */
  lemma NormalizeTrimmedInput(s: string, parse: UrlParser)
    requires IsTrimmed(s)
    ensures NormalizeUrl(s, parse) == NormalizeTrimmed(s, parse)
  {
    TrimOfTrimmed(s);
  }

  /** Without a scheme the parser sees `https://` in front of the input. */
  lemma NormalizeSchemeless(t: string, parse: UrlParser)
    requires IsTrimmed(t) && |t| > 0 && !HasScheme(t)
    ensures NormalizeUrl(t, parse) == CheckParsed(parse("https://" + t))
  {
    NormalizeTrimmedInput(t, parse);
  }

  /** A scheme-less input is accepted with what the parser makes of `https://` and the input. */
  lemma SchemelessAccepted(t: string, w: string, href: string, parse: UrlParser)
    requires IsTrimmed(t) && |t| > 0 && !HasScheme(t) && w == "https://" + t
    requires parse(w) == Some(ParsedUrl("https:", href))
    ensures NormalizeUrl(t, parse) == Ok(href)
  {
    NormalizeSchemeless(t, parse);
  }

  /** Without a colon there is no scheme. */
  lemma NoColonNoScheme(s: string)
    requires ':' !in s
    ensures !HasScheme(s)
  {
  }

  /** White space around the input never changes the outcome. */
  lemma NormalizeIgnoresSurroundingSpace(raw: string, parse: UrlParser)
    ensures NormalizeUrl(raw, parse) == NormalizeUrl(Trim(raw), parse)
  {
    TrimIdempotent(raw);
  }

  /** The string handed to the parser for a trimmed, accepted input. */
  function ParseTarget(trimmed: string): string {
    if HasScheme(trimmed) then trimmed else "https://" + trimmed
  }

  /** Lower-cased scheme of a string that has one. */
  function LowerScheme(w: string): string
    requires HasScheme(w)
  {
    AsciiLowerAll(w[..SchemeColon(w).value])
  }

  lemma HttpPrefixHasScheme(s: string)
    requires StartsWithHttpScheme(s)
    ensures HasScheme(s)
    ensures LowerScheme(s) == "http" || LowerScheme(s) == "https"
  {
    var k := if s[4] == ':' then 4 else 5;
    assert IsScheme(s[..k]);
    SchemeColonIff(s, k);
  }

  lemma HttpsPrefixScheme(t: string)
    ensures HasScheme("https://" + t) && LowerScheme("https://" + t) == "https"
  {
    var w := "https://" + t;
    assert w[..5] == "https" && w[5] == ':';
    SchemeColonIff(w, 5);
  }

  /**
   * The protocol re-check after parsing (url.ts:22-26) can only fire when the
   * parser reports a protocol other than the lower-cased scheme it was given:
   * for a parser that keeps the scheme, as the WHATWG URL Standard does, every
   * "Only http and https" error comes from the check before parsing.
   */
  lemma ProtocolRecheckRedundant(t: string, parse: UrlParser)
    requires |t| > 0 && HasScheme(ParseTarget(t))
    requires parse(ParseTarget(t)).Some? ==>
               parse(ParseTarget(t)).value.protocol == LowerScheme(ParseTarget(t)) + ":"
    ensures NormalizeTrimmed(t, parse) == Err(OnlyHttpAllowed) ==> HasScheme(t) && !StartsWithHttpScheme(t)
  {
    if HasScheme(t) && StartsWithHttpScheme(t) {
      HttpPrefixHasScheme(t);
    } else if !HasScheme(t) {
      HttpsPrefixScheme(t);
    }
  }

  /**
   * Normalizing a normalized URL returns it unchanged, given the parser
   * properties the WHATWG URL Standard promises of a serialization: it has no
   * surrounding white space, it starts with the protocol, and re-parsing it
   * yields the same record.
   */
  lemma NormalizeIdempotent(raw: string, parse: UrlParser)
    requires NormalizeUrl(raw, parse).Ok?
    requires var u := parse(ParseTarget(Trim(raw))).value;
      IsTrimmed(u.href) && StartsWith(u.href, u.protocol) && parse(u.href) == Some(u)
    ensures NormalizeUrl(NormalizeUrl(raw, parse).value, parse) == NormalizeUrl(raw, parse)
  {
    var r := NormalizeUrl(raw, parse);
    var u := parse(ParseTarget(Trim(raw))).value;
    var h := u.href;
    assert r == Ok(h) && IsHttpProtocol(u.protocol);
    assert h[..|u.protocol|] == u.protocol;
    assert h[0] == 'h' && h[1] == 't' && h[2] == 't' && h[3] == 'p';
    assert StartsWithHttpScheme(h);
    HttpPrefixHasScheme(h);
    NormalizeTrimmedInput(h, parse);
    assert NormalizeTrimmed(h, parse) == CheckParsed(Some(u));
  }

  /** `example.com:8080` reads as scheme `example.com`, so a host with a port and no scheme is refused. */
  lemma HostWithPortIsRefused(parse: UrlParser)
    ensures NormalizeUrl("example.com:8080", parse) == Err(OnlyHttpAllowed)
  {
    var s := "example.com:8080";
    TrimOfTrimmed(s);
    assert IsScheme(s[..11]);
    SchemeColonIff(s, 11);
  }

  /** tests/unit/url.test.ts: a `javascript:` URL is refused. */
  lemma JavascriptIsRefused(parse: UrlParser)
    ensures NormalizeUrl("javascript:alert(1)", parse) == Err(OnlyHttpAllowed)
  {
    var s := "javascript:alert(1)";
    TrimOfTrimmed(s);
    assert IsScheme(s[..10]);
    SchemeColonIff(s, 10);
  }

  /** tests/unit/url.test.ts: `example.com` gets `https://` and the parser's trailing slash. */
  lemma BareHostGetsHttps(parse: UrlParser)
    requires parse("https://example.com") == Some(ParsedUrl("https:", "https://example.com/"))
    ensures NormalizeUrl("example.com", parse) == Ok("https://example.com/")
  {
    var t := "example.com";
    assert IsTrimmed(t) && ':' !in t;
    NoColonNoScheme(t);
    assert "https://" + t == "https://example.com";
    SchemelessAccepted(t, "https://example.com", "https://example.com/", parse);
  }

  /** tests/unit/url.test.ts: an https URL is kept as the parser serializes it. */
  lemma HttpsUrlIsKept(parse: UrlParser)
    requires parse("https://example.com/docs") == Some(ParsedUrl("https:", "https://example.com/docs"))
    ensures NormalizeUrl("https://example.com/docs", parse) == Ok("https://example.com/docs")
  {
    var s := "https://example.com/docs";
    HttpPrefixHasScheme(s);
    NormalizeTrimmedInput(s, parse);
  }

  /** tests/unit/bookmark-schemas.test.ts: `nextjs.org/docs` gains `https://`. */
  lemma NextJsDocsGetsHttps(parse: UrlParser)
    requires parse("https://nextjs.org/docs") == Some(ParsedUrl("https:", "https://nextjs.org/docs"))
    ensures NormalizeUrl("nextjs.org/docs", parse) == Ok("https://nextjs.org/docs")
  {
    var t := "nextjs.org/docs";
    assert IsTrimmed(t) && ':' !in t;
    NoColonNoScheme(t);
    assert "https://" + t == "https://nextjs.org/docs";
    SchemelessAccepted(t, "https://nextjs.org/docs", "https://nextjs.org/docs", parse);
  }

  /** tests/unit/bookmark-schemas.test.ts: text with spaces does not parse as a URL. */
  lemma TextWithSpacesIsInvalid(parse: UrlParser)
    requires parse("https://not a valid url") == None
    ensures NormalizeUrl("not a valid url", parse) == Err(InvalidUrl)
  {
    var t := "not a valid url";
    assert IsTrimmed(t) && ':' !in t;
    NoColonNoScheme(t);
    assert "https://" + t == "https://not a valid url";
    NormalizeSchemeless(t, parse);
  }
}
