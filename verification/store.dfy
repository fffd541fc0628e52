/**
 * The client-side bookmark store of `BookmarkList` (bookmark-list.tsx): the
 * list, the `isCreating` flag and the per-item pending-delete and
 * pending-update flags, with the realtime merges and the three optimistic
 * flows. Every `setX(updater)` is one step on the current state; every
 * `await` splits a flow into a begin step and a settle step, between which
 * any number of realtime events may arrive.
 */
module Store {
  import opened Wrappers
  import opened Records
  import opened Ordering
  import opened Upsert
  import opened Schemas

  /**
   * The component state. `deletingIds` and `updatingIds` are records whose
   * only stored value is `true`, so the set of their keys says everything.
   */
  datatype Store = Store(bookmarks: seq<Item>, isCreating: bool, deletingIds: set<string>, updatingIds: set<string>)

  /** A `toast.success` or `toast.error` notification. */
  datatype Toast = ToastSuccess(message: string) | ToastError(message: string)

  const BookmarkAdded := "Bookmark added"
  const BookmarkDeleted := "Bookmark deleted"
  const BookmarkUpdated := "Bookmark updated"

  /** The list is newest first and holds each id once. */
  predicate Valid(s: Store) {
    Sorted(s.bookmarks) && UniqueIds(s.bookmarks)
  }

  /** The flags of `s` and `r` agree. */
  predicate SameFlags(s: Store, r: Store) {
    r.isCreating == s.isCreating && r.deletingIds == s.deletingIds && r.updatingIds == s.updatingIds
  }

  /** The state a page load starts from: the rows the server returned, no flag set. */
  function Init(rows: seq<Row>): (s: Store)
    ensures |s.bookmarks| == |rows|
    ensures forall i | 0 <= i < |rows| :: s.bookmarks[i] == ItemOf(rows[i]) && !s.bookmarks[i].optimistic
    ensures !s.isCreating && s.deletingIds == {} && s.updatingIds == {}
  {
    Store(seq(|rows|, i requires 0 <= i < |rows| => ItemOf(rows[i])), false, {}, {})
  }

  /**
   * The server orders the rows by `created_at` descending, and ids are the
   * table's primary key, so the initial state is valid.
   */
  lemma InitValid(rows: seq<Row>)
    requires forall i, j | 0 <= i < j < |rows| :: rows[i].createdAt >= rows[j].createdAt
    requires forall i, j | 0 <= i < j < |rows| :: rows[i].id != rows[j].id
    ensures Valid(Init(rows))
  {
    var b := Init(rows).bookmarks;
    forall i, j | 0 <= i < |b| && 0 <= j < |b| && b[i].id == b[j].id ensures i == j {
      assert b[i].id == rows[i].id && b[j].id == rows[j].id;
    }
  }

  /** `visibleBookmarks`: the list as rendered. */
  function Visible(s: Store): (r: seq<Item>)
    ensures Sorted(r) && multiset(r) == multiset(s.bookmarks)
  {
    SortBookmarks(s.bookmarks)
  }

  /** In a valid state the rendered list is the list itself. */
  lemma VisibleIsList(s: Store)
    requires Valid(s)
    ensures Visible(s) == s.bookmarks
  {
    SortOfSorted(s.bookmarks);
  }

  /** A postgres change the realtime channel delivers for the user's rows. */
  datatype Event = Inserted(row: Row) | Updated(row: Row) | Deleted(id: string)

  /** `onRealtimeInsert`, `onRealtimeUpdate` and `onRealtimeDelete`. */
  function ApplyEvent(s: Store, e: Event): (r: Store)
    ensures SameFlags(s, r)
    ensures Valid(s) ==> Valid(r)
    ensures e.Deleted? ==> forall y | y in r.bookmarks :: y.id != e.id
    ensures e.Deleted? ==> forall y | y in s.bookmarks && y.id != e.id :: y in r.bookmarks
    // a delete brings in nothing, and is the order-keeping filter
    ensures e.Deleted? ==> forall y | y in r.bookmarks :: y in s.bookmarks
    ensures e.Deleted? ==> r.bookmarks == RemoveId(s.bookmarks, e.id)
    ensures !e.Deleted? ==> ItemOf(e.row) in r.bookmarks
    // an insert or update keeps every item with another id and brings in only the row
    ensures !e.Deleted? ==> forall y | y in s.bookmarks && y.id != e.row.id :: y in r.bookmarks
    ensures !e.Deleted? ==> forall y | y in r.bookmarks :: y == ItemOf(e.row) || y in s.bookmarks
    ensures !e.Deleted? && Valid(s) ==> forall y | y in r.bookmarks && y.id == e.row.id :: y == ItemOf(e.row)
  {
    match e
    case Inserted(row) => s.(bookmarks := UpsertBookmark(s.bookmarks, ItemOf(row)))
    case Updated(row) => s.(bookmarks := UpsertBookmark(s.bookmarks, ItemOf(row)))
    case Deleted(id) =>
      RemoveIdKeepsOthers(s.bookmarks, id);
      RemoveIdPreserves(s.bookmarks, id);
      s.(bookmarks := RemoveId(s.bookmarks, id))
  }

  /** A run of realtime events, applied in arrival order. */
  function ApplyEvents(s: Store, es: seq<Event>): (r: Store)
    ensures SameFlags(s, r)
    ensures Valid(s) ==> Valid(r)
    decreases |es|
  {
    if |es| == 0 then s else ApplyEvents(ApplyEvent(s, es[0]), es[1..])
  }

  /** What a settle step leaves: the new state, the notification and the flow's return value. */
  datatype Settled = Settled(store: Store, toast: Toast, ok: bool)

  /** The item `handleCreate` shows until the server answers. */
  function OptimisticItem(input: BookmarkInput, tempId: string, userId: string, now: int): Item {
    Item(tempId, userId, input.title, input.url, now, true)
  }

  /**
   * `handleCreate` up to its `await`: set `isCreating` and upsert a
   * placeholder under the temporary id `temp-<now>`.
   */
  function CreateBegin(s: Store, input: BookmarkInput, tempId: string, userId: string, now: int): (r: Store)
    ensures r.isCreating && r.deletingIds == s.deletingIds && r.updatingIds == s.updatingIds
    ensures OptimisticItem(input, tempId, userId, now) in r.bookmarks
    ensures forall y | y in s.bookmarks && y.id != tempId :: y in r.bookmarks
    ensures forall y | y in r.bookmarks :: y == OptimisticItem(input, tempId, userId, now) || y in s.bookmarks
    ensures Valid(s) ==> Valid(r)
  {
    Store(UpsertBookmark(s.bookmarks, OptimisticItem(input, tempId, userId, now)), true, s.deletingIds, s.updatingIds)
  }

  /**
   * `handleCreate` after its `await`: drop the placeholder, and on success
   * upsert the row the server stored; clear `isCreating` either way.
   */
  function CreateSettle(s: Store, tempId: string, result: Result<Row, string>): (r: Settled)
    ensures !r.store.isCreating && r.store.deletingIds == s.deletingIds && r.store.updatingIds == s.updatingIds
    ensures r.ok <==> result.Ok?
    ensures r.toast == if result.Ok? then ToastSuccess(BookmarkAdded) else ToastError(result.error)
    ensures result.Err? ==> forall y | y in r.store.bookmarks :: y.id != tempId
    ensures result.Err? ==> forall y | y in s.bookmarks && y.id != tempId :: y in r.store.bookmarks
    ensures result.Err? ==> forall y | y in r.store.bookmarks :: y in s.bookmarks
    // on success every item with neither id stays, and only the server row comes in
    ensures result.Ok? ==> forall y | y in s.bookmarks && y.id != tempId && y.id != result.value.id :: y in r.store.bookmarks
    ensures result.Ok? ==> forall y | y in r.store.bookmarks :: y == ItemOf(result.value) || y in s.bookmarks
    ensures result.Ok? && result.value.id != tempId ==> forall y | y in r.store.bookmarks :: y.id != tempId
    ensures result.Ok? ==> ItemOf(result.value) in r.store.bookmarks
    ensures result.Ok? && Valid(s) ==>
              forall y | y in r.store.bookmarks && y.id == result.value.id :: y == ItemOf(result.value)
    ensures Valid(s) ==> Valid(r.store)
  {
    var without := RemoveId(s.bookmarks, tempId);
    RemoveIdKeepsOthers(s.bookmarks, tempId);
    RemoveIdPreserves(s.bookmarks, tempId);
    match result
    case Err(msg) =>
      Settled(Store(without, false, s.deletingIds, s.updatingIds), ToastError(msg), false)
    case Ok(row) =>
      Settled(Store(UpsertBookmark(without, ItemOf(row)), false, s.deletingIds, s.updatingIds),
              ToastSuccess(BookmarkAdded), true)
  }

  /** `handleCreate` whole: begin, the realtime events that arrive meanwhile, settle. */
  function CreateFlow(s: Store, input: BookmarkInput, tempId: string, userId: string, now: int,
                      during: seq<Event>, result: Result<Row, string>): (r: Settled)
    ensures !r.store.isCreating && r.store.deletingIds == s.deletingIds && r.store.updatingIds == s.updatingIds
    ensures r.ok <==> result.Ok?
    ensures result.Err? ==> forall y | y in r.store.bookmarks :: y.id != tempId
    ensures result.Ok? && result.value.id != tempId ==> forall y | y in r.store.bookmarks :: y.id != tempId
    ensures result.Ok? ==> ItemOf(result.value) in r.store.bookmarks
    ensures result.Ok? && Valid(s) ==>
              forall y | y in r.store.bookmarks && y.id == result.value.id :: y == ItemOf(result.value)
    ensures Valid(s) ==> Valid(r.store)
  {
    CreateSettle(ApplyEvents(CreateBegin(s, input, tempId, userId, now), during), tempId, result)
  }

  /**
   * A failed create with nothing arriving meanwhile puts the list back as it
   * was, when the temporary id is new to it.
   */
  lemma CreateFailureRestores(s: Store, input: BookmarkInput, tempId: string, userId: string, now: int, msg: string)
    requires Valid(s) && !HasId(s.bookmarks, tempId)
    ensures CreateFlow(s, input, tempId, userId, now, [], Err(msg)).store == s.(isCreating := false)
  {
    UpsertFreshThenRemove(s.bookmarks, OptimisticItem(input, tempId, userId, now));
  }

  /** What `handleDelete` keeps across its `await`. */
  datatype DeleteStarted = DeleteStarted(store: Store, removed: Option<Item>)

  /**
   * `handleDelete` up to its `await`: capture the first item with the id,
   * drop every item with it, and mark the id as being deleted.
   */
  function DeleteBegin(s: Store, id: string): (r: DeleteStarted)
    ensures r.store.isCreating == s.isCreating && r.store.updatingIds == s.updatingIds
    ensures r.store.deletingIds == s.deletingIds + {id}
    ensures forall y | y in r.store.bookmarks :: y.id != id
    ensures forall y | y in s.bookmarks && y.id != id :: y in r.store.bookmarks
    ensures forall y | y in r.store.bookmarks :: y in s.bookmarks
    ensures r.store.bookmarks == RemoveId(s.bookmarks, id)
    ensures r.removed.Some? <==> HasId(s.bookmarks, id)
    ensures r.removed.Some? ==> r.removed.value in s.bookmarks && r.removed.value.id == id
    ensures Valid(s) ==> Valid(r.store)
  {
    RemoveIdKeepsOthers(s.bookmarks, id);
    RemoveIdPreserves(s.bookmarks, id);
    DeleteStarted(Store(RemoveId(s.bookmarks, id), s.isCreating, s.deletingIds + {id}, s.updatingIds),
                  Find(s.bookmarks, id))
  }

  /**
   * `handleDelete` after its `await`: on failure upsert the captured item
   * back; clear the id's pending-delete flag either way.
   */
  function DeleteSettle(s: Store, id: string, removed: Option<Item>, result: Result<(), string>): (r: Settled)
    ensures r.store.isCreating == s.isCreating && r.store.updatingIds == s.updatingIds
    ensures r.store.deletingIds == s.deletingIds - {id}
    ensures r.ok <==> result.Ok?
    ensures r.toast == if result.Ok? then ToastSuccess(BookmarkDeleted) else ToastError(result.error)
    ensures result.Ok? || removed.None? ==> r.store.bookmarks == s.bookmarks
    ensures result.Err? && removed.Some? ==> removed.value in r.store.bookmarks
    ensures forall y | y in s.bookmarks && (removed.None? || y.id != removed.value.id) :: y in r.store.bookmarks
    // only the captured item can come back
    ensures forall y | y in r.store.bookmarks :: (removed.Some? && y == removed.value) || y in s.bookmarks
    ensures Valid(s) ==> Valid(r.store)
  {
    var cleared := s.deletingIds - {id};
    match result
    case Ok(_) => Settled(s.(deletingIds := cleared), ToastSuccess(BookmarkDeleted), true)
    case Err(msg) =>
      match removed
      case None => Settled(s.(deletingIds := cleared), ToastError(msg), false)
      case Some(item) =>
        Settled(Store(UpsertBookmark(s.bookmarks, item), s.isCreating, cleared, s.updatingIds), ToastError(msg), false)
  }

  /** `handleDelete` whole: begin, the realtime events that arrive meanwhile, settle. */
  function DeleteFlow(s: Store, id: string, during: seq<Event>, result: Result<(), string>): (r: Settled)
    ensures r.store.isCreating == s.isCreating && r.store.updatingIds == s.updatingIds
    ensures r.store.deletingIds == s.deletingIds - {id}
    ensures r.ok <==> result.Ok?
    // a failure puts the item taken out back, whatever arrived meanwhile
    ensures result.Err? && HasId(s.bookmarks, id) ==> Find(s.bookmarks, id).value in r.store.bookmarks
    ensures Valid(s) ==> Valid(r.store)
  {
    var started := DeleteBegin(s, id);
    DeleteSettle(ApplyEvents(started.store, during), id, started.removed, result)
  }

  /** A successful delete with nothing arriving meanwhile leaves no item with the id. */
  lemma DeleteSuccessRemoves(s: Store, id: string)
    ensures forall y | y in DeleteFlow(s, id, [], Ok(())).store.bookmarks :: y.id != id
  {
  }

  /**
   * A failed delete with nothing arriving meanwhile puts the list back as it
   * was, when no item before the deleted one was created at the same time.
   */
  lemma DeleteFailureRestores(s: Store, k: nat, msg: string)
    requires Valid(s) && k < |s.bookmarks|
    requires forall i | 0 <= i < k :: s.bookmarks[i].createdAt > s.bookmarks[k].createdAt
    ensures DeleteFlow(s, s.bookmarks[k].id, [], Err(msg)).store.bookmarks == s.bookmarks
  {
    var id := s.bookmarks[k].id;
    FindIsTheItem(s.bookmarks, id, s.bookmarks[k]);
    RemoveThenUpsertRestores(s.bookmarks, k);
  }

  /**
   * Items `a` then `b` created at the same moment: a failed delete of `b`
   * brings it back in front of `a`, so the rollback is a reordering there.
   */
  lemma DeleteFailureReordersTies(a: Item, b: Item, msg: string)
    requires a.id != b.id && a.createdAt == b.createdAt
    ensures DeleteFlow(Store([a, b], false, {}, {}), b.id, [], Err(msg)).store.bookmarks == [b, a]
  {
    assert UniqueIds([a, b]);
    FindIsTheItem([a, b], b.id, b);
    RemoveThenUpsertReordersTies(a, b);
  }

  /**
   * A newer row inserted by realtime while a delete of an older item is in
   * flight; the delete fails, and the list ends newest first with both.
   */
  lemma DeleteFailureWithConcurrentInsert(a: Item, row: Row, msg: string)
    requires !a.optimistic && row.id != a.id && row.createdAt > a.createdAt
    ensures DeleteFlow(Store([a], false, {}, {}), a.id, [Inserted(row)], Err(msg)).store.bookmarks == [ItemOf(row), a]
  {
    DeleteBeginOfOne(a);
    InsertIntoEmptied(a.id, row);
    var inserted := Store([ItemOf(row)], false, {a.id}, {});
    UpsertFreshInserts([ItemOf(row)], a);
    assert InsertByTime(a, [ItemOf(row)]) == [ItemOf(row), a];
    assert DeleteSettle(inserted, a.id, Some(a), Err(msg)).store.bookmarks == [ItemOf(row), a];
  }

  /** A realtime insert into an empty list. */
  lemma InsertIntoEmptied(id: string, row: Row)
    ensures ApplyEvents(Store([], false, {id}, {}), [Inserted(row)]) == Store([ItemOf(row)], false, {id}, {})
  {
    ApplyOne(Store([], false, {id}, {}), Inserted(row));
    UpsertIntoEmpty(ItemOf(row));
  }

  /** The begin step of a delete on a one-item list. */
  lemma DeleteBeginOfOne(a: Item)
    ensures DeleteBegin(Store([a], false, {}, {}), a.id) == DeleteStarted(Store([], false, {a.id}, {}), Some(a))
  {
    assert UniqueIds([a]);
    FindIsTheItem([a], a.id, a);
    RemoveIdOfOwn(a);
    var none: set<string> := {};
    assert none + {a.id} == {a.id};
  }

  lemma ApplyOne(s: Store, e: Event)
    ensures ApplyEvents(s, [e]) == ApplyEvent(s, e)
  {
    assert [e][1..] == [];
  }

  /** What `handleUpdate` keeps across its `await`: the record it rolls back to. */
  datatype UpdateStarted = UpdateStarted(store: Store, previous: Item)

  /** `{ ...previousBookmark, title, url }`: every other field, the flag included, is kept. */
  function Edited(previous: Item, input: BookmarkInput): (r: Item)
    ensures r.id == previous.id && r.createdAt == previous.createdAt && r.userId == previous.userId
    ensures r.optimistic == previous.optimistic
    ensures r.title == input.title && r.url == input.url
  {
    previous.(title := input.title, url := input.url)
  }

  /**
   * `handleUpdate` up to its `await`. The item is looked up in `snapshot`,
   * the list as of the render that created the handler, not in the current
   * list; when it is missing there the flow returns false and changes
   * nothing (`None`). Otherwise mark the id as being updated and upsert the
   * edited copy into the current list.
   */
  function UpdateBegin(snapshot: seq<Item>, s: Store, id: string, input: BookmarkInput): (r: Option<UpdateStarted>)
    ensures r.None? <==> !HasId(snapshot, id)
    ensures r.Some? ==> r.value.previous in snapshot && r.value.previous.id == id
    ensures r.Some? ==> r.value.store.isCreating == s.isCreating && r.value.store.deletingIds == s.deletingIds
    ensures r.Some? ==> r.value.store.updatingIds == s.updatingIds + {id}
    ensures r.Some? ==> Edited(r.value.previous, input) in r.value.store.bookmarks
    // every item with another id stays, and only the edited copy comes in
    ensures r.Some? ==> forall y | y in s.bookmarks && y.id != id :: y in r.value.store.bookmarks
    ensures r.Some? ==> forall y | y in r.value.store.bookmarks :: y == Edited(r.value.previous, input) || y in s.bookmarks
    ensures r.Some? && Valid(s) ==> Valid(r.value.store)
  {
    match Find(snapshot, id)
    case None => None
    case Some(previous) =>
      Some(UpdateStarted(Store(UpsertBookmark(s.bookmarks, Edited(previous, input)), s.isCreating,
                               s.deletingIds, s.updatingIds + {id}), previous))
  }

  /**
   * `handleUpdate` after its `await`: on failure upsert the snapshot's
   * record back, on success the row the server stored; clear the id's
   * pending-update flag either way.
   */
  function UpdateSettle(s: Store, id: string, previous: Item, result: Result<Row, string>): (r: Settled)
    ensures r.store.isCreating == s.isCreating && r.store.deletingIds == s.deletingIds
    ensures r.store.updatingIds == s.updatingIds - {id}
    ensures r.ok <==> result.Ok?
    ensures r.toast == if result.Ok? then ToastSuccess(BookmarkUpdated) else ToastError(result.error)
    ensures result.Err? ==> previous in r.store.bookmarks
    ensures result.Ok? ==> ItemOf(result.value) in r.store.bookmarks
    // every item with another id stays, and only the restored or stored record comes in
    ensures result.Err? ==> forall y | y in s.bookmarks && y.id != previous.id :: y in r.store.bookmarks
    ensures result.Err? ==> forall y | y in r.store.bookmarks :: y == previous || y in s.bookmarks
    ensures result.Ok? ==> forall y | y in s.bookmarks && y.id != result.value.id :: y in r.store.bookmarks
    ensures result.Ok? ==> forall y | y in r.store.bookmarks :: y == ItemOf(result.value) || y in s.bookmarks
    ensures Valid(s) ==> Valid(r.store)
  {
    var cleared := s.updatingIds - {id};
    match result
    case Err(msg) =>
      Settled(Store(UpsertBookmark(s.bookmarks, previous), s.isCreating, s.deletingIds, cleared), ToastError(msg), false)
    case Ok(row) =>
      Settled(Store(UpsertBookmark(s.bookmarks, ItemOf(row)), s.isCreating, s.deletingIds, cleared),
              ToastSuccess(BookmarkUpdated), true)
  }

  /**
   * `handleUpdate` whole: `None` when the id is missing from the snapshot,
   * otherwise begin, the realtime events that arrive meanwhile, settle.
   */
  function UpdateFlow(snapshot: seq<Item>, s: Store, id: string, input: BookmarkInput,
                      during: seq<Event>, result: Result<Row, string>): (r: Option<Settled>)
    ensures r.None? <==> !HasId(snapshot, id)
    ensures r.Some? ==> r.value.store.updatingIds == s.updatingIds - {id}
    ensures r.Some? ==> r.value.store.isCreating == s.isCreating && r.value.store.deletingIds == s.deletingIds
    ensures r.Some? ==> (r.value.ok <==> result.Ok?)
    ensures r.Some? && result.Ok? ==> ItemOf(result.value) in r.value.store.bookmarks
    // a failure puts the snapshot's record back, whatever arrived meanwhile
    ensures r.Some? && result.Err? ==> Find(snapshot, id).value in r.value.store.bookmarks
    ensures r.Some? && Valid(s) ==> Valid(r.value.store)
  {
    match UpdateBegin(snapshot, s, id, input)
    case None => None
    case Some(started) => Some(UpdateSettle(ApplyEvents(started.store, during), id, started.previous, result))
  }

  /** Replacing an item by one created at the same time keeps a list sorted. */
  lemma ReplaceSameTimeSorted(s: seq<Item>, k: nat, y: Item)
    requires Sorted(s) && k < |s| && y.createdAt == s[k].createdAt
    ensures Sorted(s[k := y])
  {
    var t := s[k := y];
    forall i, j | 0 <= i < j < |t| ensures t[i].createdAt >= t[j].createdAt {
      assert t[i].createdAt == s[i].createdAt && t[j].createdAt == s[j].createdAt;
    }
  }

  /** Upserting an item over the one with its id and the same time replaces it in place. */
  lemma UpsertInPlace(s: seq<Item>, k: nat, y: Item)
    requires Sorted(s) && UniqueIds(s) && k < |s|
    requires y.id == s[k].id && y.createdAt == s[k].createdAt
    ensures UpsertBookmark(s, y) == s[k := y]
  {
    var f := FindIndex(s, y.id).value;
    assert s[f].id == s[k].id;
    ReplaceSameTimeSorted(s, k, y);
    SortOfSorted(s[k := y]);
  }

  /**
   * A failed update with nothing arriving meanwhile, from a snapshot equal to
   * the current list, puts the list back exactly.
   */
  lemma UpdateFailureRestores(s: Store, id: string, input: BookmarkInput, msg: string)
    requires Valid(s) && HasId(s.bookmarks, id)
    ensures UpdateFlow(s.bookmarks, s, id, input, [], Err(msg)).value.store.bookmarks == s.bookmarks
  {
    var b := s.bookmarks;
    var k := FindIndex(b, id).value;
    UpdateBeginInPlace(s, id, input);
    var begun := s.(bookmarks := b[k := Edited(b[k], input)], updatingIds := s.updatingIds + {id});
    UpdateFlowQuiet(b, s, id, input, Err(msg));
    RestoreAfterEdit(b, k, Edited(b[k], input));
  }

  /** With nothing arriving meanwhile, the flow is the begin step followed by the settle step. */
  lemma UpdateFlowQuiet(snapshot: seq<Item>, s: Store, id: string, input: BookmarkInput, result: Result<Row, string>)
    requires UpdateBegin(snapshot, s, id, input).Some?
    ensures var started := UpdateBegin(snapshot, s, id, input).value;
      UpdateFlow(snapshot, s, id, input, [], result) == Some(UpdateSettle(started.store, id, started.previous, result))
  {
  }

  /** Upserting the original back over an in-place edit restores the list. */
  lemma RestoreAfterEdit(b: seq<Item>, k: nat, e: Item)
    requires Sorted(b) && UniqueIds(b) && k < |b|
    requires e.id == b[k].id && e.createdAt == b[k].createdAt
    ensures UpsertBookmark(b[k := e], b[k]) == b
  {
    var t := b[k := e];
    ReplaceSameIdUnique(b, k, e);
    ReplaceSameTimeSorted(b, k, e);
    UpsertInPlace(t, k, b[k]);
    assert t[k := b[k]] == b;
  }

  /** Replacing an item by one with the same id keeps ids unique. */
  lemma ReplaceSameIdUnique(s: seq<Item>, k: nat, y: Item)
    requires UniqueIds(s) && k < |s| && y.id == s[k].id
    ensures UniqueIds(s[k := y])
  {
    var t := s[k := y];
    forall i, j | 0 <= i < |t| && 0 <= j < |t| && t[i].id == t[j].id ensures i == j {
      assert t[i].id == s[i].id && t[j].id == s[j].id;
    }
  }

  /** On a valid list holding the id, the begin step edits the item where it stands. */
  lemma UpdateBeginInPlace(s: Store, id: string, input: BookmarkInput)
    requires Valid(s) && HasId(s.bookmarks, id)
    ensures var b := s.bookmarks; var k := FindIndex(b, id).value;
      UpdateBegin(b, s, id, input)
        == Some(UpdateStarted(s.(bookmarks := b[k := Edited(b[k], input)], updatingIds := s.updatingIds + {id}), b[k]))
  {
    var b := s.bookmarks;
    var k := FindIndex(b, id).value;
    FindIsTheItem(b, id, b[k]);
    UpsertInPlace(b, k, Edited(b[k], input));
  }

  /** Upserting over the only item, with its id and time, replaces it. */
  lemma UpsertOverOne(p: Item, e: Item)
    requires e.id == p.id && e.createdAt == p.createdAt
    ensures UpsertBookmark([p], e) == [e]
  {
    assert UniqueIds([p]);
    UpsertInPlace([p], 0, e);
    assert [p][0 := e] == [e];
  }

  /** The begin step on a one-item list whose snapshot holds that item. */
  lemma UpdateBeginOfOne(p: Item, input: BookmarkInput)
    ensures UpdateBegin([p], Store([p], false, {}, {}), p.id, input)
              == Some(UpdateStarted(Store([Edited(p, input)], false, {}, {p.id}), p))
  {
    assert UniqueIds([p]);
    FindIsTheItem([p], p.id, p);
    UpsertOverOne(p, Edited(p, input));
    var none: set<string> := {};
    assert none + {p.id} == {p.id};
  }

  /**
   * The snapshot, not the current list, decides: an item a realtime delete
   * already took out of the list is upserted back by the edit, and stays
   * after a failed update, because the rollback restores it too.
   */
  lemma UpdateOfRemovedItemReappears(p: Item, input: BookmarkInput, msg: string)
    ensures UpdateFlow([p], Store([p], false, {}, {}), p.id, input, [Deleted(p.id)], Err(msg)).value.store.bookmarks == [p]
  {
    var edited := Edited(p, input);
    UpdateBeginOfOne(p, input);
    var begun := Store([edited], false, {}, {p.id});
    ApplyOne(begun, Deleted(p.id));
    RemoveIdOfOwn(edited);
    var emptied := ApplyEvents(begun, [Deleted(p.id)]);
    assert emptied == Store([], false, {}, {p.id});
    UpsertIntoEmpty(p);
    assert UpdateSettle(emptied, p.id, p, Err(msg)).store.bookmarks == [p];
  }


  /**
   * How an awaited server action ends: its promise resolves with a result, or
   * it rejects (the action throws, or the request to the server fails).
   */
  datatype Reply<T> = Resolved(result: Result<T, string>) | Rejected(reason: string)

  /** A rejection read as a failed result carrying the rejection's message. */
  function AsResult<T>(reply: Reply<T>): (r: Result<T, string>)
    ensures reply.Resolved? ==> r == reply.result
    ensures reply.Rejected? ==> r == Err(reply.reason)
  {
    match reply
    case Resolved(result) => result
    case Rejected(reason) => Err(reason)
  }

  /**
   * `handleCreate` as written, for either ending of the action. There is no
   * `try`/`finally` around the `await`: on a rejection nothing after it runs,
   * so the state is the one the begin step and the events left.
   */
  function CreateFlowAsWritten(s: Store, input: BookmarkInput, tempId: string, userId: string, now: int,
                               during: seq<Event>, reply: Reply<Row>): (r: Store)
    ensures reply.Resolved? ==> !r.isCreating
    ensures reply.Rejected? ==> r.isCreating
    ensures r.deletingIds == s.deletingIds && r.updatingIds == s.updatingIds
    ensures Valid(s) ==> Valid(r)
  {
    match reply
    case Resolved(result) => CreateFlow(s, input, tempId, userId, now, during, result).store
    case Rejected(_) => ApplyEvents(CreateBegin(s, input, tempId, userId, now), during)
  }

  /** `handleDelete` as written, for either ending of the action. */
  function DeleteFlowAsWritten(s: Store, id: string, during: seq<Event>, reply: Reply<()>): (r: Store)
    ensures reply.Resolved? ==> r.deletingIds == s.deletingIds - {id}
    ensures reply.Rejected? ==> r.deletingIds == s.deletingIds + {id}
    ensures r.isCreating == s.isCreating && r.updatingIds == s.updatingIds
    ensures Valid(s) ==> Valid(r)
  {
    match reply
    case Resolved(result) => DeleteFlow(s, id, during, result).store
    case Rejected(_) => ApplyEvents(DeleteBegin(s, id).store, during)
  }

  /** `handleUpdate` as written, for either ending of the action. */
  function UpdateFlowAsWritten(snapshot: seq<Item>, s: Store, id: string, input: BookmarkInput,
                               during: seq<Event>, reply: Reply<Row>): (r: Option<Store>)
    ensures r.None? <==> !HasId(snapshot, id)
    ensures r.Some? && reply.Resolved? ==> r.value.updatingIds == s.updatingIds - {id}
    ensures r.Some? && reply.Rejected? ==> r.value.updatingIds == s.updatingIds + {id}
    ensures r.Some? ==> r.value.isCreating == s.isCreating && r.value.deletingIds == s.deletingIds
    ensures r.Some? && Valid(s) ==> Valid(r.value)
  {
    match UpdateBegin(snapshot, s, id, input)
    case None => None
    case Some(started) =>
      var during := ApplyEvents(started.store, during);
      match reply
      case Resolved(result) => Some(UpdateSettle(during, id, started.previous, result).store)
      case Rejected(_) => Some(during)
  }

  /**
   * A rejected action leaves its flow stuck: the create keeps `isCreating`
   * set and its placeholder shown, the delete keeps the id pending and the
   * item gone, and the update keeps the id pending and the edit shown.
   */
  lemma RejectionLeavesFlowsStuck(s: Store, input: BookmarkInput, tempId: string, userId: string, now: int,
                                  snapshot: seq<Item>, id: string, reason: string)
    ensures var c := CreateFlowAsWritten(s, input, tempId, userId, now, [], Rejected(reason));
      c.isCreating && OptimisticItem(input, tempId, userId, now) in c.bookmarks
    ensures var d := DeleteFlowAsWritten(s, id, [], Rejected(reason));
      id in d.deletingIds && !HasId(d.bookmarks, id)
    ensures HasId(snapshot, id) ==>
      var u := UpdateFlowAsWritten(snapshot, s, id, input, [], Rejected(reason)).value;
      id in u.updatingIds && Edited(Find(snapshot, id).value, input) in u.bookmarks
  {
    var d := DeleteBegin(s, id).store;
    assert ApplyEvents(d, []) == d;
  }

  /**
   * `handleCreate` with the `await` guarded as evidently intended: a
   * rejection is handled like a failed result, so the placeholder goes and
   * `isCreating` is cleared whichever way the action ends.
   */
  function CreateFlowGuarded(s: Store, input: BookmarkInput, tempId: string, userId: string, now: int,
                             during: seq<Event>, reply: Reply<Row>): (r: Settled)
    ensures !r.store.isCreating && r.store.deletingIds == s.deletingIds && r.store.updatingIds == s.updatingIds
    ensures r.ok <==> reply.Resolved? && reply.result.Ok?
    ensures reply.Rejected? ==> r.toast == ToastError(reply.reason)
    ensures reply.Rejected? ==> forall y | y in r.store.bookmarks :: y.id != tempId
    ensures reply.Resolved? ==> r == CreateFlow(s, input, tempId, userId, now, during, reply.result)
    ensures Valid(s) ==> Valid(r.store)
  {
    CreateFlow(s, input, tempId, userId, now, during, AsResult(reply))
  }

  /** `handleDelete` with the `await` guarded: the pending-delete flag is cleared whichever way it ends. */
  function DeleteFlowGuarded(s: Store, id: string, during: seq<Event>, reply: Reply<()>): (r: Settled)
    ensures r.store.deletingIds == s.deletingIds - {id}
    ensures r.store.isCreating == s.isCreating && r.store.updatingIds == s.updatingIds
    ensures r.ok <==> reply.Resolved? && reply.result.Ok?
    ensures reply.Resolved? ==> r == DeleteFlow(s, id, during, reply.result)
    ensures Valid(s) ==> Valid(r.store)
  {
    DeleteFlow(s, id, during, AsResult(reply))
  }

  /** `handleUpdate` with the `await` guarded: the pending-update flag is cleared whichever way it ends. */
  function UpdateFlowGuarded(snapshot: seq<Item>, s: Store, id: string, input: BookmarkInput,
                             during: seq<Event>, reply: Reply<Row>): (r: Option<Settled>)
    ensures r.None? <==> !HasId(snapshot, id)
    ensures r.Some? ==> r.value.store.updatingIds == s.updatingIds - {id}
    ensures r.Some? ==> (r.value.ok <==> reply.Resolved? && reply.result.Ok?)
    ensures r.Some? && reply.Resolved? ==> r == UpdateFlow(snapshot, s, id, input, during, reply.result)
    ensures r.Some? && Valid(s) ==> Valid(r.value.store)
  {
    UpdateFlow(snapshot, s, id, input, during, AsResult(reply))
  }

  /**
   * With the `await` guarded, a rejection settles every flow: no flag stays
   * set, the create's placeholder is gone, and the delete and the update put
   * back the item they had taken out or edited.
   */
  lemma RejectionSettlesFlows(s: Store, input: BookmarkInput, tempId: string, userId: string, now: int,
                              snapshot: seq<Item>, id: string, reason: string)
    ensures var c := CreateFlowGuarded(s, input, tempId, userId, now, [], Rejected(reason)).store;
      !c.isCreating && forall y | y in c.bookmarks :: y.id != tempId
    ensures var d := DeleteFlowGuarded(s, id, [], Rejected(reason)).store;
      id !in d.deletingIds && (HasId(s.bookmarks, id) ==> Find(s.bookmarks, id).value in d.bookmarks)
    ensures HasId(snapshot, id) ==>
      var u := UpdateFlowGuarded(snapshot, s, id, input, [], Rejected(reason)).value.store;
      id !in u.updatingIds && Find(snapshot, id).value in u.bookmarks
  {
    var d := DeleteBegin(s, id).store;
    assert ApplyEvents(d, []) == d;
    if HasId(snapshot, id) {
      var started := UpdateBegin(snapshot, s, id, input).value;
      assert ApplyEvents(started.store, []) == started.store;
    }
  }
}
