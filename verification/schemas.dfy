/**
 * `bookmarkInputSchema` (src/features/bookmarks/schemas.ts): the raw checks
 * on title and url, then the transform that normalizes the url. Zod is
 * replaced by the explicit checks it performs; issues keep Zod's order
 * (title before url) and carry the path of the field they are about.
 */
module Schemas {
  import opened Wrappers
  import opened JsString
  import opened Url

  datatype Issue = Issue(path: seq<string>, message: string)

  /** `BookmarkInput`: the title and url a user typed, or their parsed form. */
  datatype BookmarkInput = BookmarkInput(title: string, url: string)

  const MaxTitleLength := 120
  const TitleRequired := "Title is required"
  const TitleTooLong := "Title is too long"
  const UrlRequiredIssue := "URL is required"
  const InvalidUrlIssue := "Enter a valid URL (http/https)"

  const TitlePath: seq<string> := ["title"]
  const UrlPath: seq<string> := ["url"]

  /** `.min(1, …)` and `.max(120, …)` on the trimmed title. */
  function TitleIssues(t: string): seq<Issue> {
    (if |t| < 1 then [Issue(TitlePath, TitleRequired)] else [])
    + (if |t| > MaxTitleLength then [Issue(TitlePath, TitleTooLong)] else [])
  }

  /** `.min(1, …)` on the trimmed url. */
  function UrlIssues(u: string): seq<Issue> {
    if |u| < 1 then [Issue(UrlPath, UrlRequiredIssue)] else []
  }

  /** The title and url checks of `bookmarkInputRawSchema` both hold. */
  predicate RawValid(title: string, url: string) {
    1 <= |Trim(title)| <= MaxTitleLength && |Trim(url)| >= 1
  }

  /** `bookmarkInputSchema.safeParse`: the parsed input, or the issues Zod reports. */
  function ParseBookmarkInput(input: BookmarkInput, parse: UrlParser): (r: Result<BookmarkInput, seq<Issue>>)
    ensures r.Ok? <==> RawValid(input.title, input.url) && NormalizeUrl(Trim(input.url), parse).Ok?
    // on success: the trimmed title and the normalized trimmed url
    ensures r.Ok? ==> r.value.title == Trim(input.title)
    ensures r.Ok? ==> Ok(r.value.url) == NormalizeUrl(Trim(input.url), parse)
    // the raw checks, each with its message, title issues first
    ensures |Trim(input.title)| == 0 ==> r.Err? && |r.error| > 0 && r.error[0] == Issue(["title"], "Title is required")
    ensures |Trim(input.title)| > 120 ==> r.Err? && |r.error| > 0 && r.error[0] == Issue(["title"], "Title is too long")
    ensures |Trim(input.url)| == 0 ==> r.Err? && Issue(["url"], "URL is required") in r.error
    // and an issue only for a check that fails: when a raw check fails, the issues are exactly
    // those of the failing checks, and the url is not normalized
    ensures !RawValid(input.title, input.url) ==> r == Err(TitleIssues(Trim(input.title)) + UrlIssues(Trim(input.url)))
    ensures r.Err? && 1 <= |Trim(input.title)| <= 120 ==> forall i | 0 <= i < |r.error| :: r.error[i].path != ["title"]
    ensures r.Err? && |Trim(input.url)| >= 1 ==> forall i | 0 <= i < |r.error| :: r.error[i] != Issue(["url"], "URL is required")
    // a url that cannot be normalized gives exactly one issue, on the url
    ensures RawValid(input.title, input.url) && NormalizeUrl(Trim(input.url), parse).Err? ==>
              r == Err([Issue(["url"], "Enter a valid URL (http/https)")])
    ensures r.Err? ==> |r.error| > 0 && forall i | 0 <= i < |r.error| :: r.error[i].path in {TitlePath, UrlPath}
  {
    var title := Trim(input.title);
    var url := Trim(input.url);
    var issues := TitleIssues(title) + UrlIssues(url);
    if |issues| > 0 then Err(issues)
    else match NormalizeUrl(url, parse)
      case Ok(normalized) => Ok(BookmarkInput(title, normalized))
      case Err(_) => Err([Issue(UrlPath, InvalidUrlIssue)])
  }

  /**
   * Parsing what the schema produced gives it back unchanged, for a parser
   * whose serialization has no surrounding white space, starts with its
   * protocol and parses back to the same record (WHATWG URL Standard, 4.5).
   */
  lemma ParseIdempotent(input: BookmarkInput, parse: UrlParser)
    requires ParseBookmarkInput(input, parse).Ok?
    requires var u := parse(ParseTarget(Trim(Trim(input.url)))).value;
      IsTrimmed(u.href) && StartsWith(u.href, u.protocol) && parse(u.href) == Some(u)
    ensures ParseBookmarkInput(ParseBookmarkInput(input, parse).value, parse) == ParseBookmarkInput(input, parse)
  {
    var out := ParseBookmarkInput(input, parse).value;
    NormalizeIdempotent(Trim(input.url), parse);
    TrimIdempotent(input.title);
    var h := out.url;
    assert IsTrimmed(h);
    TrimOfTrimmed(h);
    assert |h| > 0 by {
      var u := parse(ParseTarget(Trim(Trim(input.url)))).value;
      assert h == u.href && IsHttpProtocol(u.protocol);
    }
  }

  /** Input that is already trimmed and valid is kept, with its url normalized. */
  lemma ParseTrimmedInput(title: string, url: string, parse: UrlParser)
    requires IsTrimmed(title) && IsTrimmed(url)
    ensures ParseBookmarkInput(BookmarkInput(title, url), parse).Ok? ==>
              ParseBookmarkInput(BookmarkInput(title, url), parse) == Ok(BookmarkInput(title, NormalizeUrl(url, parse).value))
    ensures RawValid(title, url) && NormalizeUrl(url, parse).Err? ==>
              ParseBookmarkInput(BookmarkInput(title, url), parse) == Err([Issue(UrlPath, InvalidUrlIssue)])
  {
    TrimOfTrimmed(title);
    TrimOfTrimmed(url);
  }

  /** tests/unit/bookmark-schemas.test.ts: a scheme-less url gains `https://`. */
  lemma NextJsDocsExample(parse: UrlParser)
    requires parse("https://nextjs.org/docs") == Some(ParsedUrl("https:", "https://nextjs.org/docs"))
    ensures ParseBookmarkInput(BookmarkInput("Next.js docs", "nextjs.org/docs"), parse)
              == Ok(BookmarkInput("Next.js docs", "https://nextjs.org/docs"))
  {
    NextJsDocsGetsHttps(parse);
    ParseTrimmedInput("Next.js docs", "nextjs.org/docs", parse);
  }

  /** tests/unit/bookmark-schemas.test.ts: an empty title fails, whatever the url. */
  lemma EmptyTitleFails(parse: UrlParser)
    ensures ParseBookmarkInput(BookmarkInput("", "https://nextjs.org/docs"), parse).Err?
  {
  }

  /** tests/unit/bookmark-schemas.test.ts: text with spaces is no URL, so the url field fails. */
  lemma TextWithSpacesFails(parse: UrlParser)
    requires parse("https://not a valid url") == None
    ensures ParseBookmarkInput(BookmarkInput("Bad URL", "not a valid url"), parse)
              == Err([Issue(["url"], "Enter a valid URL (http/https)")])
  {
    TextWithSpacesIsInvalid(parse);
    TrimOfTrimmed("Bad URL");
    TrimOfTrimmed("not a valid url");
    ParseTrimmedInput("Bad URL", "not a valid url", parse);
  }
}
