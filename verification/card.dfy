/**
 * `BookmarkCard` (bookmark-card.tsx) without its markup: the edit state
 * machine (`startEditing`, `cancelEditing`, `saveEdit`) and the conditions
 * under which its buttons are disabled.
 */
module Card {
  import opened Wrappers
  import opened JsString
  import opened Url
  import opened Schemas
  import opened Fields
  import opened Records
  import opened Store
  import opened Upsert

  /** The card's own state: edit mode, the two drafts and the field errors. */
  datatype Card = Card(isEditing: bool, title: string, url: string, errors: FieldErrors)

  /** A freshly mounted card shows the bookmark, with drafts set to its values. */
  function Mount(b: Item): (c: Card)
    ensures !c.isEditing && c.errors == NoErrors
    ensures c.title == b.title && c.url == b.url
  {
    Card(false, b.title, b.url, NoErrors)
  }

  /** The flags `BookmarkList` passes a card for item `b`. */
  datatype Flags = Flags(isDeleting: bool, isUpdating: bool, isOptimistic: bool)

  function FlagsOf(s: Store, b: Item): (f: Flags)
    ensures f.isDeleting <==> b.id in s.deletingIds
    ensures f.isUpdating <==> b.id in s.updatingIds
    ensures f.isOptimistic <==> b.optimistic
  {
    Flags(b.id in s.deletingIds, b.id in s.updatingIds, b.optimistic)
  }

  /** The edit button (shown outside edit mode). */
  predicate EditDisabled(f: Flags) {
    f.isDeleting || f.isUpdating || f.isOptimistic
  }

  /** The delete button. */
  predicate DeleteDisabled(c: Card, f: Flags) {
    c.isEditing || f.isDeleting || f.isUpdating || f.isOptimistic
  }

  /** The save and cancel buttons (shown in edit mode). */
  predicate SaveDisabled(f: Flags) {
    f.isUpdating
  }

  predicate CancelDisabled(f: Flags) {
    f.isUpdating
  }

  /** `startEditing`: drafts reset to the bookmark's current values, errors cleared. */
  function StartEditing(c: Card, b: Item): (r: Card)
    ensures r.isEditing && r.errors == NoErrors
    ensures r.title == b.title && r.url == b.url
  {
    Card(true, b.title, b.url, NoErrors)
  }

  /** `cancelEditing`: leave edit mode and clear the errors; the drafts stay. */
  function CancelEditing(c: Card): (r: Card)
    ensures !r.isEditing && r.errors == NoErrors
    ensures r.title == c.title && r.url == c.url
  {
    c.(isEditing := false, errors := NoErrors)
  }

  /** The arguments of `onUpdate(bookmark.id, parsed.data)`. */
  datatype UpdateRequest = UpdateRequest(id: string, input: BookmarkInput)

  /**
   * `saveEdit` up to its `await`: parse the drafts. On failure set the field
   * errors and send nothing; on success send the card's bookmark id with the
   * parsed input to `onUpdate` and leave the card as it is.
   */
  method SaveEdit(c: Card, b: Item, parse: UrlParser) returns (r: Card, request: Option<UpdateRequest>)
    ensures var parsed := ParseBookmarkInput(BookmarkInput(c.title, c.url), parse);
      (request.None? <==> parsed.Err?)
      && (parsed.Ok? ==> request == Some(UpdateRequest(b.id, parsed.value)) && r == c)
      && (parsed.Err? ==> r == c.(errors := FieldErrors(LastMessage(parsed.error, "title"), LastMessage(parsed.error, "url"))))
  {
    match ParseBookmarkInput(BookmarkInput(c.title, c.url), parse)
    case Err(issues) =>
      var errors := CollectFieldErrors(issues);
      r, request := c.(errors := errors), None;
    case Ok(input) =>
      r, request := c, Some(UpdateRequest(b.id, input));
  }

  /**
   * A card's request, handled by a list whose render-time snapshot holds the
   * card's bookmark once, rolls back to that bookmark and shows its edited copy.
   */
  lemma SaveRequestEditsTheCardsBookmark(b: Item, input: BookmarkInput, snapshot: seq<Item>, s: Store)
    requires b in snapshot && UniqueIds(snapshot)
    ensures var request := UpdateRequest(b.id, input);
      var started := UpdateBegin(snapshot, s, request.id, request.input);
      started.Some? && started.value.previous == b && Edited(b, request.input) in started.value.store.bookmarks
  {
    FindIsTheItem(snapshot, b.id, b);
  }

  /** `saveEdit` after `onUpdate` answers: only a true answer leaves edit mode and clears errors. */
  function SaveEditSettle(c: Card, success: bool): (r: Card)
    ensures success ==> !r.isEditing && r.errors == NoErrors
    ensures !success ==> r == c
  {
    if success then c.(isEditing := false, errors := NoErrors) else c
  }

  /** An edit request with a valid draft sends the trimmed title and the normalized url. */
  lemma SaveSendsNormalized(c: Card, parse: UrlParser)
    requires RawValid(c.title, c.url) && NormalizeUrl(Trim(c.url), parse).Ok?
    ensures var request := ParseBookmarkInput(BookmarkInput(c.title, c.url), parse);
      request.Ok? && request.value.title == Trim(c.title)
      && Ok(request.value.url) == NormalizeUrl(Trim(c.url), parse)
  {
  }

  /** A draft whose title is blank never reaches `onUpdate`, and the title field says why. */
  lemma BlankTitleBlocksSave(c: Card, parse: UrlParser)
    requires |Trim(c.title)| == 0
    ensures ParseBookmarkInput(BookmarkInput(c.title, c.url), parse).Err?
    ensures LastMessage(ParseBookmarkInput(BookmarkInput(c.title, c.url), parse).error, "title").Some?
  {
    var issues := ParseBookmarkInput(BookmarkInput(c.title, c.url), parse).error;
    assert Targets(issues[0], "title");
    LastMessageIsLastTargeting(issues, "title");
  }

  /**
   * While an update of an item is in flight, its card can neither start
   * another edit, nor save, nor cancel, nor be deleted.
   */
  lemma UpdateInFlightLocksCard(snapshot: seq<Item>, s: Store, id: string, input: BookmarkInput, c: Card, b: Item)
    requires UpdateBegin(snapshot, s, id, input).Some? && b.id == id
    ensures var f := FlagsOf(UpdateBegin(snapshot, s, id, input).value.store, b);
      EditDisabled(f) && SaveDisabled(f) && CancelDisabled(f) && DeleteDisabled(c, f)
  {
  }

  /** The placeholder of a create in flight can be neither edited nor deleted. */
  lemma OptimisticItemIsLocked(s: Store, input: BookmarkInput, tempId: string, userId: string, now: int, c: Card)
    ensures var f := FlagsOf(CreateBegin(s, input, tempId, userId, now), OptimisticItem(input, tempId, userId, now));
      EditDisabled(f) && DeleteDisabled(c, f)
  {
  }

  /** A card in edit mode cannot be deleted, whatever the flags. */
  lemma EditingBlocksDelete(c: Card, f: Flags)
    requires c.isEditing
    ensures DeleteDisabled(c, f)
  {
  }

  /**
   * Once the update settles and no delete is pending for the id, a server
   * row's card can be edited again.
   */
  lemma SettledUpdateUnlocksCard(s: Store, id: string, previous: Item, result: Result<Row, string>, b: Item)
    requires b.id == id && !b.optimistic && id !in s.deletingIds
    ensures !EditDisabled(FlagsOf(UpdateSettle(s, id, previous, result).store, b))
  {
  }
}
