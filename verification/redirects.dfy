/**
 * The two redirect helpers of the sign-in round trip: `getBaseUrl` and the
 * `redirectTo` string of src/features/auth/actions.ts, which send the OAuth
 * provider back to the callback, and `sanitizeNextPath` of
 * src/app/auth/callback/route.ts, which picks where the callback sends the
 * user afterwards.
 */
module Redirects {
  import opened Wrappers
  import opened JsString

  const DefaultNext := "/bookmarks"
  const LocalBase := "http://localhost:3000"
  const CallbackPath := "/auth/callback"
  const NextQuery := "?next="
  const CallbackSuffix := CallbackPath + NextQuery + DefaultNext

  /** `sanitizeNextPath`, as written: any path that starts with "/" is kept. */
  function SanitizeNextPath(path: Option<string>): (r: string)
    ensures StartsWith(r, "/")
    ensures path.Some? && StartsWith(path.value, "/") ==> r == path.value
    ensures path.None? || !StartsWith(path.value, "/") ==> r == DefaultNext
  {
    if path.None? || path.value == "" || !StartsWith(path.value, "/") then DefaultNext
    else path.value
  }

  lemma SanitizeNextPathIdempotent(path: Option<string>)
    ensures SanitizeNextPath(Some(SanitizeNextPath(path))) == SanitizeNextPath(path)
  {
  }

  /** `redirectTo`: the callback on the chosen base, asking to land on the bookmarks page. */
  function RedirectTo(baseUrl: string): (r: string)
    ensures |r| == |baseUrl| + |CallbackSuffix| && r[..|baseUrl|] == baseUrl
    ensures r[|baseUrl|..] == CallbackSuffix
  {
    baseUrl + CallbackSuffix
  }

  /**
   * The callback address on the chosen base carries `next=/bookmarks`, and
   * that `next` comes through both sanitizers unchanged.
   */
  lemma RedirectAsksForBookmarks(baseUrl: string)
    ensures var r := RedirectTo(baseUrl);
      var q := |baseUrl| + |CallbackPath| + |NextQuery|;
      r[|baseUrl|..q] == CallbackPath + NextQuery && r[q..] == DefaultNext
      && SanitizeNextPath(Some(r[q..])) == DefaultNext && SanitizeNextPathSameOrigin(Some(r[q..])) == DefaultNext
  {
    var r := RedirectTo(baseUrl);
    var q := |baseUrl| + |CallbackPath| + |NextQuery|;
    var tail := r[|baseUrl|..];
    assert tail == (CallbackPath + NextQuery) + DefaultNext;
    assert r[|baseUrl|..q] == tail[..q - |baseUrl|];
    assert r[q..] == tail[q - |baseUrl|..];
    CallbackKeepsBookmarksPage();
  }

  /** The `next` the sign-in asks for is kept by the callback. */
  lemma CallbackKeepsBookmarksPage()
    ensures SanitizeNextPath(Some(DefaultNext)) == DefaultNext
    ensures SanitizeNextPathSameOrigin(Some(DefaultNext)) == DefaultNext
  {
    DefaultNextIsLocal();
  }

  /** The default landing page is a path on the site itself. */
  lemma DefaultNextIsLocal()
    ensures StartsWith(DefaultNext, "/") && !IsNetworkPathReference(DefaultNext)
  {
    var d := DefaultNext;
    assert forall i | 0 <= i < |d| :: !IsTabOrNewline(d[i]);
    RemoveTabNewlineKeeps(d);
  }

  /** The characters the URL parser drops from anywhere in its input: tab, LF and CR. */
  predicate IsTabOrNewline(c: char) {
    c == '\t' || c == '\n' || c == '\r'
  }

  function RemoveTabNewline(s: string): (r: string)
    ensures |r| <= |s|
    ensures forall i | 0 <= i < |r| :: !IsTabOrNewline(r[i])
  {
    if |s| == 0 then []
    else (if IsTabOrNewline(s[0]) then [] else [s[0]]) + RemoveTabNewline(s[1..])
  }

  /** A string without tabs or newlines is left as it is. */
  lemma {:induction false} RemoveTabNewlineKeeps(s: string)
    requires forall i | 0 <= i < |s| :: !IsTabOrNewline(s[i])
    ensures RemoveTabNewline(s) == s
  {
    if |s| > 0 {
      RemoveTabNewlineKeeps(s[1..]);
      assert s == [s[0]] + s[1..];
    }
  }

  /** For http and https bases the URL parser reads `\` as `/`. */
  predicate IsSlash(c: char) {
    c == '/' || c == '\\'
  }

  /**
   * A reference that `new URL(next, origin)` resolves against another
   * authority: once tabs and newlines are dropped it starts with two
   * slashes, a network-path reference in the terms of section 4.2 of RFC
   * 3986 (WHATWG URL Standard, 4.4, the "relative slash" state).
   */
  predicate IsNetworkPathReference(p: string) {
    var q := RemoveTabNewline(p);
    |q| >= 2 && IsSlash(q[0]) && IsSlash(q[1])
  }

  /** The sanitizer as written lets a network-path reference through unchanged. */
  lemma SanitizerPassesNetworkPath()
    ensures SanitizeNextPath(Some("//evil.example")) == "//evil.example"
    ensures IsNetworkPathReference("//evil.example")
  {
    var p := "//evil.example";
    assert StartsWith(p, "/");
    assert forall i | 0 <= i < |p| :: !IsTabOrNewline(p[i]);
    RemoveTabNewlineKeeps(p);
  }

  /**
   * `sanitizeNextPath` as evidently intended: only a path on the same site
   * is kept, so network-path references fall back to the default too.
   */
  function SanitizeNextPathSameOrigin(path: Option<string>): (r: string)
    ensures StartsWith(r, "/") && !IsNetworkPathReference(r)
    ensures !IsNetworkPathReference(SanitizeNextPath(path)) ==> r == SanitizeNextPath(path)
    ensures IsNetworkPathReference(SanitizeNextPath(path)) ==> r == DefaultNext
  {
    var kept := SanitizeNextPath(path);
    DefaultNextIsLocal();
    if IsNetworkPathReference(kept) then DefaultNext else kept
  }

  lemma SanitizeNextPathSameOriginIdempotent(path: Option<string>)
    ensures SanitizeNextPathSameOrigin(Some(SanitizeNextPathSameOrigin(path))) == SanitizeNextPathSameOrigin(path)
  {
  }

  /** The header `headerStore.get(name)` finds; names are kept in lower case. */
  function Header(headers: map<string, string>, name: string): Option<string> {
    if name in headers then Some(headers[name]) else None
  }

  /** A non-empty value: `if (value)` on a string or null. */
  predicate Present(v: Option<string>) {
    v.Some? && v.value != ""
  }

  /** `headerStore.get("x-forwarded-proto") ?? "https"`: the default applies only to a missing header. */
  function ForwardedProto(headers: map<string, string>): (p: string)
    ensures "x-forwarded-proto" !in headers ==> p == "https"
    ensures "x-forwarded-proto" in headers ==> p == headers["x-forwarded-proto"]
  {
    match Header(headers, "x-forwarded-proto")
    case Some(p) => p
    case None => "https"
  }

  /**
   * `getBaseUrl`: the configured site URL, else the forwarded host with the
   * forwarded protocol ("https" only when that header is absent), else the
   * origin header, else the local development address.
   */
  function GetBaseUrl(headers: map<string, string>, siteUrl: Option<string>): (r: string)
    ensures Present(siteUrl) ==> r == siteUrl.value
    ensures !Present(siteUrl) && Present(Header(headers, "x-forwarded-host")) ==>
              r == ForwardedProto(headers) + "://" + headers["x-forwarded-host"]
    ensures !Present(siteUrl) && !Present(Header(headers, "x-forwarded-host")) && Present(Header(headers, "origin")) ==>
              r == headers["origin"]
    ensures !Present(siteUrl) && !Present(Header(headers, "x-forwarded-host")) && !Present(Header(headers, "origin")) ==>
              r == LocalBase
    ensures |r| > 0
  {
    var forwardedHost := Header(headers, "x-forwarded-host");
    var forwardedProto := ForwardedProto(headers);
    var origin := Header(headers, "origin");
    if Present(siteUrl) then siteUrl.value
    else if Present(forwardedHost) then forwardedProto + "://" + forwardedHost.value
    else if Present(origin) then origin.value
    else LocalBase
  }

  /** A configured site URL makes the headers irrelevant. */
  lemma SiteUrlOverridesHeaders(h1: map<string, string>, h2: map<string, string>, site: string)
    requires site != ""
    ensures GetBaseUrl(h1, Some(site)) == GetBaseUrl(h2, Some(site)) == site
  {
  }

  /** Behind a proxy that names only its host, the protocol defaults to https. */
  lemma ForwardedHostDefaultsToHttps(headers: map<string, string>, host: string)
    requires Header(headers, "x-forwarded-host") == Some(host) && host != ""
    requires "x-forwarded-proto" !in headers
    ensures GetBaseUrl(headers, None) == "https://" + host
  {
  }

  /** A forwarded protocol header that is present but empty is used as it is: no default. */
  lemma EmptyForwardedProtoIsKept(headers: map<string, string>, host: string)
    requires Header(headers, "x-forwarded-host") == Some(host) && host != ""
    requires Header(headers, "x-forwarded-proto") == Some("")
    ensures GetBaseUrl(headers, None) == "://" + host
  {
  }
}
