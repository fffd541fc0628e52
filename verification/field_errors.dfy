/**
 * The issue-to-field-error loop that bookmark-card.tsx (`saveEdit`) and
 * bookmark-form.tsx (`onSubmit`) both run over the issues of a failed parse:
 * each issue whose first path segment is "title" or "url" overwrites that
 * field's message, so the last issue per field wins.
 */
module Fields {
  import opened Wrappers
  import opened JsString
  import opened Url
  import opened Schemas

  /** `{ title?: string; url?: string }`. */
  datatype FieldErrors = FieldErrors(title: Option<string>, url: Option<string>)

  const NoErrors := FieldErrors(None, None)

  /** `issue.path[0]`: absent for an empty path. */
  function FirstSegment(path: seq<string>): Option<string> {
    if |path| == 0 then None else Some(path[0])
  }

  predicate Targets(issue: Issue, field: string) {
    FirstSegment(issue.path) == Some(field)
  }

  /** Reference definition: the message of the last issue targeting `field`. */
  function LastMessage(issues: seq<Issue>, field: string): Option<string> {
    if |issues| == 0 then None
    else if Targets(issues[|issues| - 1], field) then Some(issues[|issues| - 1].message)
    else LastMessage(issues[..|issues| - 1], field)
  }

  /**
   * A field gets a message exactly when some issue targets it, and the
   * message is that of the last such issue.
   */
  lemma {:induction false} LastMessageIsLastTargeting(issues: seq<Issue>, field: string)
    ensures LastMessage(issues, field).None? <==> forall i | 0 <= i < |issues| :: !Targets(issues[i], field)
    ensures LastMessage(issues, field).Some? ==>
              exists i | 0 <= i < |issues| :: Targets(issues[i], field)
                && LastMessage(issues, field).value == issues[i].message
                && forall j | i < j < |issues| :: !Targets(issues[j], field)
  {
    if |issues| > 0 {
      var n := |issues| - 1;
      var front := issues[..n];
      LastMessageIsLastTargeting(front, field);
      assert forall i | 0 <= i < n :: front[i] == issues[i];
      if !Targets(issues[n], field) && LastMessage(front, field).Some? {
        var i :| 0 <= i < |front| && Targets(front[i], field)
                 && LastMessage(front, field).value == front[i].message
                 && forall j | i < j < |front| :: !Targets(front[j], field);
        assert forall j | i < j < |issues| :: !Targets(issues[j], field);
      }
    }
  }

  /** The loop over `parsed.error.issues` that builds `nextErrors`. */
  method CollectFieldErrors(issues: seq<Issue>) returns (errors: FieldErrors)
    ensures errors.title == LastMessage(issues, "title")
    ensures errors.url == LastMessage(issues, "url")
  {
    errors := NoErrors;
    var i := 0;
    while i < |issues|
      invariant 0 <= i <= |issues|
      invariant errors.title == LastMessage(issues[..i], "title")
      invariant errors.url == LastMessage(issues[..i], "url")
    {
      assert issues[..i + 1][..i] == issues[..i];
      if FirstSegment(issues[i].path) == Some("title") {
        errors := errors.(title := Some(issues[i].message));
      }
      if FirstSegment(issues[i].path) == Some("url") {
        errors := errors.(url := Some(issues[i].message));
      }
      i := i + 1;
    }
    assert issues[..|issues|] == issues;
  }

  /** The issues of a failed parse of title "" and url "": both fields get their "required" message. */
  lemma BothRequired(parse: UrlParser)
    ensures var r := ParseBookmarkInput(BookmarkInput("", ""), parse);
      r.Err? && LastMessage(r.error, "title") == Some(TitleRequired) && LastMessage(r.error, "url") == Some(UrlRequiredIssue)
  {
    TrimOfTrimmed("");
    var issues := ParseBookmarkInput(BookmarkInput("", ""), parse).error;
    assert issues == [Issue(TitlePath, TitleRequired), Issue(UrlPath, UrlRequiredIssue)];
    assert issues[..1] == [Issue(TitlePath, TitleRequired)];
  }
}
