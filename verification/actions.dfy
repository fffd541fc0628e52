/**
 * The server actions of src/features/bookmarks/actions.ts as decision
 * logic: the order of the checks (id, input, sign-in), the request each
 * action sends to the database, scoped to the signed-in user, and the
 * mapping of the database reply to a result. Authentication and the
 * database are oracles: the reply of `auth.getUser()` is a parameter, and
 * the database is a function from request to reply. The outcome records the
 * effects performed, in order.
 */
module Actions {
  import opened Wrappers
  import opened JsString
  import opened Url
  import opened Schemas
  import opened Mappers
  import opened Records

  datatype User = User(id: string)

  /** `{ data: { user }, error }` of `supabase.auth.getUser()`. */
  datatype AuthReply = AuthReply(error: JsValue, user: Option<User>)

  /** The three statements the actions send to the `bookmarks` table. */
  datatype DbRequest =
    | InsertRow(userId: string, title: string, url: string)
    | UpdateRow(id: string, userId: string, title: string, url: string)
    | DeleteRow(id: string, userId: string)

  /** `{ data, error }` of a statement; `data` is the selected row, if any. */
  datatype DbReply = DbReply(error: JsValue, data: Option<Row>)

  type Database = DbRequest -> DbReply

  /** What an action does besides computing its result. */
  datatype Effect = GetUser | Persist(request: DbRequest) | Revalidate(path: string)

  /** An action's result with the effects performed on the way to it. */
  datatype Outcome<T> = Outcome(result: Result<T, string>, effects: seq<Effect>)

  const IdRequired := "Bookmark id is required."
  const InvalidInput := "Invalid bookmark input."
  const LoginRequired := "You need to be logged in."
  const BookmarksPath := "/bookmarks"

  /** `issues[0]?.message ?? "Invalid bookmark input."`. */
  function FirstIssueMessage(issues: seq<Issue>): (r: string)
    ensures |issues| > 0 ==> r == issues[0].message
    ensures |issues| == 0 ==> r == InvalidInput
  {
    if |issues| > 0 then issues[0].message else InvalidInput
  }

  /** Neither `userError` nor `!user` holds. */
  predicate SignedIn(auth: AuthReply) {
    IsFalsy(auth.error) && auth.user.Some?
  }

  /** `error || !data`. */
  predicate Failed(reply: DbReply) {
    !IsFalsy(reply.error) || reply.data.None?
  }

  /** Every statement sent names the signed-in user. */
  predicate ScopedTo(effects: seq<Effect>, auth: AuthReply) {
    forall i | 0 <= i < |effects| && effects[i].Persist? ::
      auth.user.Some? && effects[i].request.userId == auth.user.value.id
  }

  /** The tail shared by create and update: map a failed reply, or revalidate and return the row. */
  function RowReply(reply: DbReply, before: seq<Effect>): (r: Outcome<Row>)
    ensures Failed(reply) ==> r == Outcome(Err(MapBookmarkActionError(reply.error)), before)
    ensures !Failed(reply) ==> r == Outcome(Ok(reply.data.value), before + [Revalidate(BookmarksPath)])
    // it adds no statement, and revalidates exactly on success
    ensures forall a: AuthReply | ScopedTo(before, a) :: ScopedTo(r.effects, a)
    ensures Revalidate(BookmarksPath) !in before ==> (Revalidate(BookmarksPath) in r.effects <==> r.result.Ok?)
  {
    if !IsFalsy(reply.error) || reply.data.None? then Outcome(Err(MapBookmarkActionError(reply.error)), before)
    else Outcome(Ok(reply.data.value), before + [Revalidate(BookmarksPath)])
  }

  /** The signed-in tail of create and update: send the statement, then map its reply. */
  function SendScoped(request: DbRequest, auth: AuthReply, db: Database): (r: Outcome<Row>)
    requires SignedIn(auth) && request.userId == auth.user.value.id
    ensures r == RowReply(db(request), [GetUser, Persist(request)])
    ensures ScopedTo(r.effects, auth)
    ensures Revalidate(BookmarksPath) in r.effects <==> r.result.Ok?
  {
    var before := [GetUser, Persist(request)];
    assert ScopedTo(before, auth);
    RowReply(db(request), before)
  }

  /** `createBookmarkAction`. */
  function CreateBookmarkAction(input: BookmarkInput, parse: UrlParser, auth: AuthReply, db: Database): (r: Outcome<Row>)
    // validation comes first, and a failure does nothing else
    ensures ParseBookmarkInput(input, parse).Err? ==>
              r == Outcome(Err(FirstIssueMessage(ParseBookmarkInput(input, parse).error)), [])
    // then sign-in, and a failure sends nothing to the database
    ensures ParseBookmarkInput(input, parse).Ok? && !SignedIn(auth) ==> r == Outcome(Err(LoginRequired), [GetUser])
    // the insert carries the parsed fields and the user's id
    ensures ParseBookmarkInput(input, parse).Ok? && SignedIn(auth) ==>
              var p := ParseBookmarkInput(input, parse).value;
              var request := InsertRow(auth.user.value.id, p.title, p.url);
              r == RowReply(db(request), [GetUser, Persist(request)])
    ensures ScopedTo(r.effects, auth)
    ensures Revalidate(BookmarksPath) in r.effects <==> r.result.Ok?
  {
    match ParseBookmarkInput(input, parse)
    case Err(issues) => Outcome(Err(FirstIssueMessage(issues)), [])
    case Ok(p) =>
      if !SignedIn(auth) then Outcome(Err(LoginRequired), [GetUser])
      else
        SendScoped(InsertRow(auth.user.value.id, p.title, p.url), auth, db)
  }

  /** `deleteBookmarkAction`: success carries no payload. */
  function DeleteBookmarkAction(id: string, auth: AuthReply, db: Database): (r: Outcome<()>)
    ensures id == "" ==> r == Outcome(Err(IdRequired), [])
    ensures id != "" && !SignedIn(auth) ==> r == Outcome(Err(LoginRequired), [GetUser])
    ensures id != "" && SignedIn(auth) ==>
              var request := DeleteRow(id, auth.user.value.id);
              // exactly one delete, then a revalidation only on success
              r.effects == [GetUser, Persist(request)] + (if r.result.Ok? then [Revalidate(BookmarksPath)] else [])
              && (r.result.Err? <==> !IsFalsy(db(request).error))
              && (r.result.Err? ==> r.result.error == MapBookmarkActionError(db(request).error))
    ensures ScopedTo(r.effects, auth)
    ensures Revalidate(BookmarksPath) in r.effects <==> r.result.Ok?
  {
    if id == "" then Outcome(Err(IdRequired), [])
    else if !SignedIn(auth) then Outcome(Err(LoginRequired), [GetUser])
    else
      var request := DeleteRow(id, auth.user.value.id);
      var reply := db(request);
      if !IsFalsy(reply.error) then Outcome(Err(MapBookmarkActionError(reply.error)), [GetUser, Persist(request)])
      else Outcome(Ok(()), [GetUser, Persist(request), Revalidate(BookmarksPath)])
  }

  /** `updateBookmarkAction`: the id is checked before the input. */
  function UpdateBookmarkAction(id: string, input: BookmarkInput, parse: UrlParser, auth: AuthReply, db: Database): (r: Outcome<Row>)
    ensures id == "" ==> r == Outcome(Err(IdRequired), [])
    ensures id != "" && ParseBookmarkInput(input, parse).Err? ==>
              r == Outcome(Err(FirstIssueMessage(ParseBookmarkInput(input, parse).error)), [])
    ensures id != "" && ParseBookmarkInput(input, parse).Ok? && !SignedIn(auth) ==> r == Outcome(Err(LoginRequired), [GetUser])
    ensures id != "" && ParseBookmarkInput(input, parse).Ok? && SignedIn(auth) ==>
              var p := ParseBookmarkInput(input, parse).value;
              var request := UpdateRow(id, auth.user.value.id, p.title, p.url);
              r == RowReply(db(request), [GetUser, Persist(request)])
    ensures ScopedTo(r.effects, auth)
    ensures Revalidate(BookmarksPath) in r.effects <==> r.result.Ok?
  {
    if id == "" then Outcome(Err(IdRequired), [])
    else
      match ParseBookmarkInput(input, parse)
      case Err(issues) => Outcome(Err(FirstIssueMessage(issues)), [])
      case Ok(p) =>
        if !SignedIn(auth) then Outcome(Err(LoginRequired), [GetUser])
        else
          SendScoped(UpdateRow(id, auth.user.value.id, p.title, p.url), auth, db)
  }

  /** Invalid input is answered the same way whoever asks and whatever the database holds. */
  lemma InvalidInputIgnoresAuthAndDatabase(input: BookmarkInput, parse: UrlParser, a1: AuthReply, a2: AuthReply, d1: Database, d2: Database)
    requires ParseBookmarkInput(input, parse).Err?
    ensures CreateBookmarkAction(input, parse, a1, d1) == CreateBookmarkAction(input, parse, a2, d2)
    ensures CreateBookmarkAction(input, parse, a1, d1).result.error != LoginRequired
  {
  }

  /** An empty id is refused before the input is even looked at. */
  lemma EmptyIdComesFirst(input: BookmarkInput, parse: UrlParser, auth: AuthReply, db: Database)
    ensures UpdateBookmarkAction("", input, parse, auth, db) == Outcome(Err(IdRequired), [])
    ensures DeleteBookmarkAction("", auth, db) == Outcome(Err(IdRequired), [])
  {
  }

  /** A statement that returns neither an error nor a row gives the fallback message. */
  lemma MissingRowGivesFallback(input: BookmarkInput, parse: UrlParser, auth: AuthReply, db: Database)
    requires ParseBookmarkInput(input, parse).Ok? && SignedIn(auth)
    requires forall q :: db(q) == DbReply(Null, None)
    ensures CreateBookmarkAction(input, parse, auth, db).result == Err(Fallback)
  {
  }

  /** Row-level security refusing the insert reads as "Not authorized for this action.". */
  lemma PolicyDenialIsNotAuthorized(input: BookmarkInput, parse: UrlParser, auth: AuthReply, db: Database, m: string)
    requires ParseBookmarkInput(input, parse).Ok? && SignedIn(auth)
    requires forall q :: db(q) == DbReply(Object(Some(PString(m)), Some(PString(InsufficientPrivilege))), None)
    ensures CreateBookmarkAction(input, parse, auth, db).result == Err(NotAuthorized)
  {
    var p := ParseBookmarkInput(input, parse).value;
    var request := InsertRow(auth.user.value.id, p.title, p.url);
    var e := Object(Some(PString(m)), Some(PString(InsufficientPrivilege)));
    assert db(request) == DbReply(e, None);
    assert MapBookmarkActionError(e) == NotAuthorized;
  }

  /**
   * What the form sends is already parsed; parsing it again on the server
   * changes nothing, so the row inserted carries exactly the title and url
   * the client computed (for a parser whose serialization parses back to
   * itself, as the WHATWG URL Standard, section 4.5, has it).
   */
  lemma ServerParsesClientInputUnchanged(raw: BookmarkInput, parse: UrlParser, auth: AuthReply, db: Database)
    requires ParseBookmarkInput(raw, parse).Ok? && SignedIn(auth)
    requires var u := parse(ParseTarget(Trim(Trim(raw.url)))).value;
      IsTrimmed(u.href) && StartsWith(u.href, u.protocol) && parse(u.href) == Some(u)
    ensures var sent := ParseBookmarkInput(raw, parse).value;
      Persist(InsertRow(auth.user.value.id, sent.title, sent.url)) in CreateBookmarkAction(sent, parse, auth, db).effects
  {
    ParseIdempotent(raw, parse);
    InsertsWhatParsesToItself(ParseBookmarkInput(raw, parse).value, parse, auth, db);
  }

  /** Input that parses to itself is inserted as it is. */
  lemma InsertsWhatParsesToItself(sent: BookmarkInput, parse: UrlParser, auth: AuthReply, db: Database)
    requires ParseBookmarkInput(sent, parse) == Ok(sent) && SignedIn(auth)
    ensures Persist(InsertRow(auth.user.value.id, sent.title, sent.url)) in CreateBookmarkAction(sent, parse, auth, db).effects
  {
    var request := InsertRow(auth.user.value.id, sent.title, sent.url);
    var r := RowReply(db(request), [GetUser, Persist(request)]);
    assert r.effects[1] == Persist(request);
  }
}
