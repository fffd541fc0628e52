/**
 * `BookmarkForm` (bookmark-form.tsx) without its markup: `onSubmit` and the
 * submit button's disabled condition.
 */
module Form {
  import opened Wrappers
  import opened JsString
  import opened Url
  import opened Schemas
  import opened Fields
  import opened Records
  import opened Upsert
  import opened Store

  /** The two inputs and the field errors. */
  datatype Form = Form(title: string, url: string, errors: FieldErrors)

  const Empty := Form("", "", NoErrors)

  /** The submit button. */
  predicate SubmitDisabled(isCreating: bool) {
    isCreating
  }

  /**
   * `onSubmit` up to its `await`: on a failed parse set the field errors
   * and send nothing; otherwise clear the errors and send the parsed input
   * to `onCreate`.
   */
  method Submit(f: Form, parse: UrlParser) returns (r: Form, request: Option<BookmarkInput>)
    ensures var parsed := ParseBookmarkInput(BookmarkInput(f.title, f.url), parse);
      (request.None? <==> parsed.Err?)
      && (parsed.Err? ==> r == f.(errors := FieldErrors(LastMessage(parsed.error, "title"), LastMessage(parsed.error, "url"))))
      && (parsed.Ok? ==> r == f.(errors := NoErrors))
    ensures request.Some? ==> request.value.title == Trim(f.title)
    ensures request.Some? ==> Ok(request.value.url) == NormalizeUrl(Trim(f.url), parse)
  {
    match ParseBookmarkInput(BookmarkInput(f.title, f.url), parse)
    case Err(issues) =>
      var errors := CollectFieldErrors(issues);
      r, request := f.(errors := errors), None;
    case Ok(input) =>
      r, request := f.(errors := NoErrors), Some(input);
  }

  /** `onSubmit` after `onCreate` answers: the inputs are emptied only on success. */
  function SubmitSettle(f: Form, success: bool): (r: Form)
    ensures success ==> r.title == "" && r.url == "" && r.errors == f.errors
    ensures !success ==> r == f
  {
    if success then f.(title := "", url := "") else f
  }

  /**
   * While a create is in flight the button is disabled; once it settles,
   * whatever the outcome, it is enabled again.
   */
  lemma CreateHoldsSubmit(s: Store, input: BookmarkInput, tempId: string, userId: string, now: int,
                          during: seq<Event>, result: Result<Row, string>)
    ensures SubmitDisabled(ApplyEvents(CreateBegin(s, input, tempId, userId, now), during).isCreating)
    ensures !SubmitDisabled(CreateFlow(s, input, tempId, userId, now, during, result).store.isCreating)
  {
  }

  /**
   * A form submitted with inputs that parse, whose create then succeeds,
   * ends empty and without errors; the list holds the stored row.
   */
  lemma SuccessfulSubmitEmptiesForm(f: Form, parse: UrlParser, s: Store, tempId: string, userId: string, now: int,
                                    during: seq<Event>, row: Row)
    requires ParseBookmarkInput(BookmarkInput(f.title, f.url), parse).Ok?
    ensures var input := ParseBookmarkInput(BookmarkInput(f.title, f.url), parse).value;
      var settled := CreateFlow(s, input, tempId, userId, now, during, Ok(row));
      SubmitSettle(f.(errors := NoErrors), settled.ok) == Empty && ItemOf(row) in settled.store.bookmarks
  {
  }

  /** A failed create leaves the typed inputs in place for another try. */
  lemma FailedSubmitKeepsInputs(f: Form, parse: UrlParser, s: Store, tempId: string, userId: string, now: int,
                                during: seq<Event>, msg: string)
    requires ParseBookmarkInput(BookmarkInput(f.title, f.url), parse).Ok?
    ensures var input := ParseBookmarkInput(BookmarkInput(f.title, f.url), parse).value;
      var settled := CreateFlow(s, input, tempId, userId, now, during, Err(msg));
      SubmitSettle(f.(errors := NoErrors), settled.ok) == f.(errors := NoErrors)
  {
  }
}
