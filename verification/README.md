# Smart bookmark app: the bookmark core in Dafny

This project models the logic of the smart bookmark app that decides what a
user sees and what reaches the database. The model covers six parts:

- **The client-side store of `BookmarkList`.** This is the bookmark list, kept
  newest first by `sortBookmarks`, with `upsertBookmark` merging records into
  it. It also covers the realtime insert, update and delete merges, and the
  three optimistic flows: create, delete and update. Each flow has a begin
  step and a settle step, which is how `await` splits it, and any sequence of
  realtime events can arrive between the two. `Store.CreateFlow`, `Store.DeleteFlow` and
  `Store.UpdateFlow` take the result of an action that resolved. An action
  can also reject, and then the settle step never runs: the `AsWritten`
  flows model that, and the `Guarded` flows model the evident fix (see
  "## Findings").
- **The three server actions** (`createBookmarkAction`, `deleteBookmarkAction`,
  `updateBookmarkAction`). The model states the order of their checks, the
  statement each sends (scoped to the signed-in user), how a reply maps to a
  result, and that revalidation happens only on success.
- **Input validation.** This is `bookmarkInputSchema` together with
  `normalizeUrl`: trimming, the title bounds, the scheme test
  `/^[a-zA-Z][a-zA-Z\d+\-.]*:/` (the scheme grammar of section 3.1 of RFC
  3986), the http/https allow-list, the `https://` default and the protocol
  re-check.
- **The error classifier** `mapBookmarkActionError`.
- **The redirect helpers** `getBaseUrl`, `redirectTo` and `sanitizeNextPath`.
- **The card and form state machines.** These are `startEditing`,
  `cancelEditing`, `saveEdit` and `onSubmit`, with the loop that turns parse
  issues into field errors, and the predicates that disable each button while
  an operation is pending.

The model has one module per source concept:

| module | what it holds |
|---|---|
| `JsString` | `trim` and character classes |
| `Url` | `normalizeUrl` |
| `Schemas` | the Zod schema |
| `Mappers` | the error classifier |
| `Records` | rows and list items |
| `Ordering` | `sortBookmarks` |
| `Upsert` | find, filter and `upsertBookmark` |
| `Store` | the list state and its flows |
| `Fields` | the issue-to-error loop |
| `Card` and `Form` | the two components |
| `Actions` | the server actions |
| `Redirects` | the auth redirect helpers |

What the model takes as parameters instead of computing:

- **The WHATWG URL parser** (`new URL` and `toString`, sections 4.4 and 4.5 of
  the WHATWG URL Standard) is a parameter `parse: string -> Option<ParsedUrl>`.
  `None` stands for a throw.
- **Authentication.** The reply of `auth.getUser()` is a parameter.
- **The database** is a function from request to reply.
- **The temporary id and the current time** of an optimistic create are
  parameters.
- **Realtime deliveries** are a sequence of events.

`created_at` is an integer, ordered as `Date.getTime()` orders it.

## Model

| member | source | states |
|---|---|---|
| JsString.Trim | src/lib/utils/url.ts:2 | `trim` leaves no white space at either end, and never makes a string longer. |
| JsString.TrimStartDropsPrefix | src/lib/utils/url.ts:2 | Trimming the start removes exactly a white-space prefix and keeps the rest. |
| JsString.TrimEndDropsSuffix | src/lib/utils/url.ts:2 | Trimming the end removes exactly a white-space suffix and keeps the rest. |
| JsString.TrimSplits | src/lib/utils/url.ts:2 | Every string is white space, then its trimmed core, then white space. |
| JsString.TrimOfPadded | src/lib/utils/url.ts:2 | Trimming a trimmed string wrapped in white space gives that string back. |
| JsString.TrimOfTrimmed | src/lib/utils/url.ts:2 | A string with no white space at either end is left unchanged. |
| JsString.TrimIdempotent | src/features/bookmarks/schemas.ts:6-7 | Trimming twice is trimming once, so the schema's trim and `normalizeUrl`'s trim agree. |
| Url.SchemeColonIff | src/lib/utils/url.ts:8 | The scheme test finds a colon at index k exactly when the text before k is an RFC 3986 scheme name: a letter followed by letters, digits, `+`, `-` or `.`. |
| Url.ScanSchemeFinds | src/lib/utils/url.ts:8 | The scan for the scheme's colon stops at k exactly when k holds a colon and every character before it is a scheme character. |
| Url.HttpPrefixHasScheme | src/lib/utils/url.ts:8-9 | Input that passes the case-insensitive `/^https?:/i` test also has a scheme, and that scheme lower-cases to http or https. |
| Url.NormalizeTrimmed | src/lib/utils/url.ts:4-26 | "URL is required" is returned exactly for empty input. A scheme other than http/https is refused before parsing. Input with a scheme is parsed as written; input without one is parsed with `https://` in front. A parse failure gives "Enter a valid URL". Once the target parses, an http or https URL gives its serialization and any other protocol gives "Only http and https URLs are allowed". Every success is the serialization of an http or https URL, and no other error message can occur. |
| Url.NormalizeUrl | src/lib/utils/url.ts:1-27 | The result is "URL is required" exactly when the trimmed input is empty. A success is the serialization of an http or https URL parsed from the trimmed input, with the `https://` default applied. |
| Url.NormalizeIgnoresSurroundingSpace | src/lib/utils/url.ts:2 | White space around the input never changes the outcome. |
| Url.NormalizeSchemeless | src/lib/utils/url.ts:13-20 | Trimmed input without a scheme is decided by what the parser makes of `https://` followed by the input. |
| Url.SchemelessAccepted | src/lib/utils/url.ts:13-26 | Input without a scheme is accepted with the serialization of its `https://` form. |
| Url.ProtocolRecheckRedundant | src/lib/utils/url.ts:22-24 | For a parser that keeps the lower-cased scheme it was given, the check after parsing never fires: every "Only http and https" error comes from the check before parsing. |
| Url.NormalizeIdempotent | src/lib/utils/url.ts:1-27 | Normalizing a normalized URL returns it unchanged. This assumes a parser whose serialization has no surrounding white space, starts with its protocol and parses back to the same record. |
| Url.HostWithPortIsRefused | src/lib/utils/url.ts:8-11 | `example.com:8080` reads as the scheme `example.com`, so it is refused as a non-http URL. |
| Url.JavascriptIsRefused | tests/unit/url.test.ts:14-16 | `javascript:alert(1)` is refused with "Only http and https URLs are allowed". |
| Url.BareHostGetsHttps | tests/unit/url.test.ts:6-8 | `example.com` becomes `https://example.com/`. |
| Url.HttpsUrlIsKept | tests/unit/url.test.ts:10-12 | `https://example.com/docs` is kept. |
| Url.NextJsDocsGetsHttps | tests/unit/bookmark-schemas.test.ts:6-17 | `nextjs.org/docs` becomes `https://nextjs.org/docs`. |
| Url.TextWithSpacesIsInvalid | tests/unit/bookmark-schemas.test.ts:28-35 | Text that the parser rejects gives "Enter a valid URL". |
| Schemas.ParseBookmarkInput | src/features/bookmarks/schemas.ts:5-24 | Parsing succeeds exactly when the trimmed title has 1 to 120 characters, the trimmed url is non-empty and it normalizes. On success the result is the trimmed title and the normalized url. A blank or too-long title is the first issue, on path `title`. A blank url gives "URL is required" on path `url`. When a raw check fails, the issues are exactly those of the failing checks, title first, and the url is not normalized. So a title issue appears only for a failing title, and "URL is required" only for a blank url. A url that fails to normalize gives exactly one issue, on `url`. Every failure has at least one issue, each on `title` or `url`. |
| Schemas.ParseIdempotent | src/features/bookmarks/schemas.ts:10-15 | Parsing the schema's own output gives it back unchanged, for a parser whose serialization is trimmed, starts with its protocol and parses back to itself. |
| Schemas.ParseTrimmedInput | src/features/bookmarks/schemas.ts:10-23 | Trimmed input that parses keeps its title and gets its url normalized. If normalization fails, the one issue is the url issue. |
| Schemas.NextJsDocsExample | tests/unit/bookmark-schemas.test.ts:6-17 | `{Next.js docs, nextjs.org/docs}` parses to `{Next.js docs, https://nextjs.org/docs}`. |
| Schemas.EmptyTitleFails | tests/unit/bookmark-schemas.test.ts:19-26 | An empty title fails whatever the url. |
| Schemas.TextWithSpacesFails | tests/unit/bookmark-schemas.test.ts:28-35 | "not a valid url" fails with the single url issue "Enter a valid URL (http/https)". |
| Mappers.MapBookmarkActionError | src/features/bookmarks/mappers.ts:12-38 | The checks run in order. A falsy value gives the fallback. A non-empty string is returned as it is. An Error gives its message, whatever its code. An object with a string message gives the insufficient-privilege (42501) or unique-violation (23505) text, or else its own message. Anything else gives the fallback. |
| Mappers.MessageIsFixedOrCarried | src/features/bookmarks/mappers.ts:12-38 | Every result is one of the three fixed texts or a message the value itself carries. |
| Mappers.CodeMappingOnlyForKnownCodes | src/features/bookmarks/mappers.ts:25-35 | A PostgREST error's message is replaced only for codes 42501 and 23505. |
| Mappers.RowLevelSecurityIsNotAuthorized | tests/unit/bookmark-mappers.test.ts:6-16 | A row-level-security error with code 42501 reads "Not authorized for this action." |
| Mappers.ErrorReportsItsMessage | tests/unit/bookmark-mappers.test.ts:18-20 | `new Error("boom")` gives "boom", even when it carries a known code. |
| Mappers.EmptyObjectGetsFallback | tests/unit/bookmark-mappers.test.ts:22-24 | `{}` gives the fallback message. |
| Ordering.InsertByTime | src/components/bookmarks/bookmark-list.tsx:31-35 | Inserting into a newest-first list keeps it newest first and adds exactly that one item. |
| Ordering.SortBookmarks | src/components/bookmarks/bookmark-list.tsx:31-35 | The result is newest first and a permutation of the input (same multiset). |
| Ordering.SortStable | src/components/bookmarks/bookmark-list.tsx:32-34 | The sort is stable: for every creation time, the items created then keep their relative order. |
| Ordering.InsertByTimeStable | src/components/bookmarks/bookmark-list.tsx:32-34 | A single insertion is stable: the inserted item goes in front of the items it ties with. |
| Ordering.CreatedAtConcat | src/components/bookmarks/bookmark-list.tsx:32-34 | Selecting the items of one creation time distributes over concatenation. |
| Ordering.SortOfSorted | src/components/bookmarks/bookmark-list.tsx:31-35 | Sorting a list that is already newest first changes nothing. |
| Ordering.SortIdempotent | src/components/bookmarks/bookmark-list.tsx:31-35 | Sorting twice is sorting once. |
| Ordering.InsertPosition | src/components/bookmarks/bookmark-list.tsx:33 | The insertion point is in front of the first item that is not newer than the new one. |
| Ordering.InsertByTimeAt | src/components/bookmarks/bookmark-list.tsx:31-35 | An item whose newer items are exactly the first k lands at index k, with every other item where it was. |
| Ordering.InsertByTimeSplits | src/components/bookmarks/bookmark-list.tsx:31-35 | Insertion keeps the list around the new item intact. |
| Upsert.FindIndex | src/components/bookmarks/bookmark-list.tsx:38 | `findIndex` gives the first position holding the id, and none exactly when no item has it. |
| Upsert.Find | src/components/bookmarks/bookmark-list.tsx:116 | `find` gives the first item of the list with the id, and none exactly when no item has it. |
| Upsert.FindIsTheItem | src/components/bookmarks/bookmark-list.tsx:116 | With unique ids, the item found is the one item with that id. |
| Upsert.RemoveId | src/components/bookmarks/bookmark-list.tsx:58-60 | After the filter, no item has the id. |
| Upsert.RemoveIdKeepsOthers | src/components/bookmarks/bookmark-list.tsx:58-60 | The filter keeps every item with another id and brings in nothing new. |
| Upsert.RemoveIdConcat | src/components/bookmarks/bookmark-list.tsx:59 | The filter works item by item, distributing over concatenation, so the remaining items keep their relative order. |
| Upsert.RemoveIdAbsent | src/components/bookmarks/bookmark-list.tsx:59 | Filtering out an id nobody has changes nothing. |
| Upsert.RemoveIdSorted | src/components/bookmarks/bookmark-list.tsx:59 | Filtering keeps a list newest first. |
| Upsert.RemoveIdUnique | src/components/bookmarks/bookmark-list.tsx:59 | Filtering keeps ids unique. |
| Upsert.RemoveIdPreserves | src/components/bookmarks/bookmark-list.tsx:59 | Filtering keeps both the newest-first order and unique ids. |
| Upsert.UniqueCountsAtMostOne | src/components/bookmarks/bookmark-list.tsx:37-46 | In a list with unique ids, every item occurs at most once. |
| Upsert.SameIdSameItem | src/components/bookmarks/bookmark-list.tsx:37-46 | In a list with unique ids, two items with the same id are the same item. |
| Upsert.PermutationKeepsUnique | src/components/bookmarks/bookmark-list.tsx:42 | Re-ordering a list, as the sort does, keeps its ids unique. |
| Upsert.Replaced | src/components/bookmarks/bookmark-list.tsx:38-45 | Before sorting, the incoming item is present. The length stays the same when the id was present and grows by one otherwise. Every item with another id stays, and nothing else is added. |
| Upsert.UpsertBookmark | src/components/bookmarks/bookmark-list.tsx:37-46 | The result is newest first and holds the incoming item. Its length is unchanged when the id was present and one more when it was absent. Every item with another id is kept and nothing else is added. Ids stay unique, and the incoming item is the only one with its id. |
| Upsert.UpsertFreshInserts | src/components/bookmarks/bookmark-list.tsx:45 | Upserting a new id into a newest-first list is a plain insertion at its time. |
| Upsert.UpsertIdempotent | src/components/bookmarks/bookmark-list.tsx:37-46 | Upserting the same record twice is upserting it once. |
| Upsert.UpsertFreshThenRemove | src/components/bookmarks/bookmark-list.tsx:89-94 | Upserting a new id and then filtering it out gives back the original newest-first list. |
| Upsert.InsertThenRemove | src/components/bookmarks/bookmark-list.tsx:45 | Inserting an item with a new id and then filtering it out gives the list back. |
| Upsert.RemoveInserted | src/components/bookmarks/bookmark-list.tsx:59 | Filtering out an id that was placed into a list without it gives that list back. |
| Upsert.RemoveBetween | src/components/bookmarks/bookmark-list.tsx:59 | Filtering out the one item with an id from between two parts without it joins the parts. |
| Upsert.RemoveAt | src/components/bookmarks/bookmark-list.tsx:117 | In a list with unique ids, filtering out item k's id removes exactly item k. |
| Upsert.DropKeepsSorted | src/components/bookmarks/bookmark-list.tsx:117 | Dropping one item keeps a list newest first. |
| Upsert.InsertBack | src/components/bookmarks/bookmark-list.tsx:125 | Inserting item k back into the list without it puts it back at k, provided no earlier item ties with it. |
| Upsert.RemoveThenUpsertRestores | src/components/bookmarks/bookmark-list.tsx:115-125 | Filtering out an item and upserting it back restores the list, provided no earlier item ties with it. |
| Upsert.RemoveThenUpsertReordersTies | src/components/bookmarks/bookmark-list.tsx:115-125 | With two items created at the same time, filtering out the second and upserting it back puts it first. |
| Store.Init | src/components/bookmarks/bookmark-list.tsx:49-52 | The initial state holds the server rows in order, none marked optimistic, with no flag set. |
| Store.InitValid | src/components/bookmarks/bookmark-list.tsx:49 | Rows ordered by `created_at` descending, with distinct ids, give a valid (newest-first, unique-id) state. |
| Store.Visible | src/components/bookmarks/bookmark-list.tsx:73 | The rendered list is newest first and a permutation of the state's list. |
| Store.VisibleIsList | src/components/bookmarks/bookmark-list.tsx:73 | In a valid state the rendered list is the list itself. |
| Store.ApplyEvent | src/components/bookmarks/bookmark-list.tsx:54-64 | A realtime insert or update puts the row in the list as the only item with its id, keeps every item with another id, and brings in nothing else. A realtime delete is the order-keeping filter: it removes every item with the id, keeps every other item, and brings in nothing. No flag changes, and validity is preserved. |
| Store.ApplyEvents | src/components/bookmarks/bookmark-list.tsx:54-64 | Any run of realtime events leaves the flags alone and preserves validity. |
| Store.CreateBegin | src/components/bookmarks/bookmark-list.tsx:77-89 | `isCreating` is set, the optimistic placeholder is in the list, every item with another id stays, nothing else comes in, and validity is preserved. |
| Store.CreateSettle | src/components/bookmarks/bookmark-list.tsx:93-107 | On failure no item with the temporary id remains, every other item stays, and nothing comes in. On success the server row is present as the only item with its id, every item with neither id stays, and nothing else comes in; and the temporary id is gone when it differs from the server id. `isCreating` ends false either way, the toast matches the outcome, and validity is preserved. |
| Store.CreateFlow | src/components/bookmarks/bookmark-list.tsx:75-110 | Whatever realtime events arrive meanwhile: `isCreating` ends false, the result is true exactly on success, a failure leaves no temporary item, and a success leaves the server row as the only item with its id. |
| Store.CreateFailureRestores | src/components/bookmarks/bookmark-list.tsx:89-97 | A failed create with no interleaved events gives back exactly the list before it. |
| Store.DeleteBegin | src/components/bookmarks/bookmark-list.tsx:113-120 | The item is removed immediately and the id is marked as being deleted. The item is captured exactly when the list held the id. The list becomes the order-keeping filter: every other item stays and nothing comes in. |
| Store.DeleteSettle | src/components/bookmarks/bookmark-list.tsx:122-136 | On failure the captured item, if any, is upserted back, and nothing else comes in; on success the list is untouched. The id's pending-delete flag is cleared either way, and the toast matches the outcome. |
| Store.DeleteFlow | src/components/bookmarks/bookmark-list.tsx:112-137 | Whatever realtime events arrive meanwhile, the pending-delete flag ends cleared, the other flags are untouched, and validity is preserved. On failure the item taken out is back in the list. |
| Store.DeleteSuccessRemoves | src/components/bookmarks/bookmark-list.tsx:115-129 | A successful delete leaves no item with the id. |
| Store.DeleteFailureRestores | src/components/bookmarks/bookmark-list.tsx:115-127 | A failed delete with no interleaved events restores the list exactly, when no earlier item ties with the deleted one. |
| Store.DeleteFailureReordersTies | src/components/bookmarks/bookmark-list.tsx:115-127 | With two items created at the same time, a failed delete of the second brings it back in front of the first. |
| Store.DeleteFailureWithConcurrentInsert | src/components/bookmarks/bookmark-list.tsx:54-56 | A newer row inserted by realtime during a failed delete ends in front of the restored item. |
| Store.Edited | src/components/bookmarks/bookmark-list.tsx:146-150 | The optimistic edit keeps every field of the previous record, the optimistic flag included, except the title and url. |
| Store.UpdateBegin | src/components/bookmarks/bookmark-list.tsx:141-153 | The flow stops, changing nothing, exactly when the render-time snapshot lacks the id. Otherwise the id is marked as being updated, the edited copy is in the list, every item with another id stays, nothing else comes in, and the other flags are untouched. |
| Store.UpdateSettle | src/components/bookmarks/bookmark-list.tsx:156-174 | On failure the snapshot's record is upserted back; on success the server row is. Every item with another id stays and nothing else comes in. The pending-update flag is cleared either way, and the toast matches the outcome. |
| Store.UpdateFlow | src/components/bookmarks/bookmark-list.tsx:139-177 | The flow returns false, with no change at all, exactly when the snapshot lacks the id. Otherwise the pending-update flag ends cleared, the result is true exactly on success, a success leaves the server row in the list, a failure puts the snapshot's record back whatever arrived meanwhile, and validity is preserved. |
| Store.UpsertInPlace | src/components/bookmarks/bookmark-list.tsx:153 | Upserting a record with an existing id and the same time replaces it where it stands. |
| Store.UpdateFailureRestores | src/components/bookmarks/bookmark-list.tsx:153-157 | A failed update with no interleaved events, from a snapshot equal to the list, restores the list exactly. |
| Store.UpdateOfRemovedItemReappears | src/components/bookmarks/bookmark-list.tsx:141-157 | If a realtime delete removes the item while its update is in flight and the update then fails, the rollback puts the deleted item back. |
| Store.CreateFlowAsWritten | src/components/bookmarks/bookmark-list.tsx:75-108 | `handleCreate` for an action that resolves or rejects: `isCreating` ends cleared exactly when the action resolves, the other flags are untouched, and validity is preserved. |
| Store.DeleteFlowAsWritten | src/components/bookmarks/bookmark-list.tsx:112-137 | `handleDelete` for an action that resolves or rejects: the id's pending-delete flag is cleared when the action resolves and stays set when it rejects. |
| Store.UpdateFlowAsWritten | src/components/bookmarks/bookmark-list.tsx:139-177 | `handleUpdate` for an action that resolves or rejects: the flow stops exactly when the snapshot lacks the id; otherwise the pending-update flag is cleared when the action resolves and stays set when it rejects. |
| Store.RejectionLeavesFlowsStuck | src/components/bookmarks/bookmark-list.tsx:91-155 | A rejected action leaves `isCreating` set with the placeholder shown, a deleted item gone with its id pending, or an edit shown with its id pending. |
| Store.CreateFlowGuarded | src/components/bookmarks/bookmark-list.tsx:75-108 | With the `await` guarded, `isCreating` is cleared however the action ends. A rejection removes the placeholder and shows its message, and a resolved action behaves as written. |
| Store.DeleteFlowGuarded | src/components/bookmarks/bookmark-list.tsx:112-137 | With the `await` guarded, the pending-delete flag is cleared however the action ends, and a resolved action behaves as written. |
| Store.UpdateFlowGuarded | src/components/bookmarks/bookmark-list.tsx:139-177 | With the `await` guarded, the pending-update flag is cleared however the action ends, and a resolved action behaves as written. |
| Store.RejectionSettlesFlows | src/components/bookmarks/bookmark-list.tsx:91-155 | With the `await` guarded, a rejection leaves no flag set, removes the create's placeholder, and puts back the item a delete removed or an update edited. |
| Fields.LastMessageIsLastTargeting | src/components/bookmarks/bookmark-form.tsx:28-35 | A field gets a message exactly when some issue targets it, and the message is that of the last such issue. |
| Fields.CollectFieldErrors | src/components/bookmarks/bookmark-form.tsx:27-36 | The loop gives each field the message of the last issue whose first path segment names it, and none if no issue does. |
| Fields.BothRequired | src/components/bookmarks/bookmark-form.tsx:25-36 | An empty title and an empty url give both fields their "required" message. |
| Card.Mount | src/components/bookmarks/bookmark-card.tsx:31-34 | A new card is not editing, has no errors, and its drafts are the bookmark's values. |
| Card.FlagsOf | src/components/bookmarks/bookmark-list.tsx:199-201 | A card is deleting, updating or optimistic exactly when the store's flags say so for its id and item. |
| Card.StartEditing | src/components/bookmarks/bookmark-card.tsx:36-41 | Edit mode starts with the drafts reset to the bookmark's current values and the errors cleared. |
| Card.CancelEditing | src/components/bookmarks/bookmark-card.tsx:43-46 | Cancelling leaves edit mode and clears the errors, keeping the drafts. |
| Card.SaveEdit | src/components/bookmarks/bookmark-card.tsx:48-64 | A request is sent exactly when the drafts parse, and it carries the card's bookmark id with the parsed input. Invalid drafts set the last message per field and send nothing. |
| Card.SaveRequestEditsTheCardsBookmark | src/components/bookmarks/bookmark-card.tsx:64 | The id a card sends finds its own bookmark in the list's snapshot: the update rolls back to that bookmark and shows its edited copy. |
| Card.SaveEditSettle | src/components/bookmarks/bookmark-card.tsx:64-68 | Edit mode is left, with errors cleared, only when the update returns true. |
| Card.SaveSendsNormalized | src/components/bookmarks/bookmark-card.tsx:49-64 | A valid draft is sent as its trimmed title and normalized url. |
| Card.BlankTitleBlocksSave | src/components/bookmarks/bookmark-card.tsx:49-62 | A blank title never reaches `onUpdate`, and the title field gets a message. |
| Card.UpdateInFlightLocksCard | src/components/bookmarks/bookmark-card.tsx:126-160 | While an item's update is in flight, its edit, save, cancel and delete buttons are all disabled. |
| Card.OptimisticItemIsLocked | src/components/bookmarks/bookmark-card.tsx:149-160 | The placeholder of a create in flight can be neither edited nor deleted. |
| Card.EditingBlocksDelete | src/components/bookmarks/bookmark-card.tsx:160 | A card in edit mode cannot be deleted. |
| Card.SettledUpdateUnlocksCard | src/components/bookmarks/bookmark-card.tsx:149 | Once the update settles, a server row's card can be edited again unless a delete is pending. |
| Form.Submit | src/components/bookmarks/bookmark-form.tsx:22-41 | A request is sent exactly when the inputs parse. Invalid inputs set the last message per field. Valid inputs clear the errors and send the trimmed title and normalized url, not the raw fields. |
| Form.SubmitSettle | src/components/bookmarks/bookmark-form.tsx:42-45 | The inputs are emptied only when the create returns true; otherwise the form is unchanged. |
| Form.CreateHoldsSubmit | src/components/bookmarks/bookmark-form.tsx:82 | The submit button is disabled while a create is in flight and enabled once it settles, whatever the outcome. |
| Form.SuccessfulSubmitEmptiesForm | src/components/bookmarks/bookmark-form.tsx:40-45 | A valid submission whose create succeeds ends with an empty form and the stored row in the list. |
| Form.FailedSubmitKeepsInputs | src/components/bookmarks/bookmark-form.tsx:40-45 | A failed create leaves the typed inputs in place. |
| Actions.FirstIssueMessage | src/features/bookmarks/actions.ts:39 | The error is the first issue's message, or "Invalid bookmark input." when there is none. |
| Actions.RowReply | src/features/bookmarks/actions.ts:63-75 | An error or a missing row maps the error and revalidates nothing; otherwise the row is returned after revalidating `/bookmarks`. |
| Actions.CreateBookmarkAction | src/features/bookmarks/actions.ts:34-76 | Invalid input is answered with its first issue before anything else happens. Then a failed sign-in gives "You need to be logged in." with nothing sent to the database. Then the parsed fields are inserted under the user's id. Every statement is scoped to the user, and `/bookmarks` is revalidated exactly on success. |
| Actions.DeleteBookmarkAction | src/features/bookmarks/actions.ts:78-109 | An empty id is refused first, then a failed sign-in. Then exactly one delete is sent, filtering on both the id and the user's id. A database error is mapped, and `/bookmarks` is revalidated exactly on success. |
| Actions.UpdateBookmarkAction | src/features/bookmarks/actions.ts:111-161 | The checks run in order: the id, then the input, then sign-in. The update filters on both the id and the user's id. An error or a missing row is mapped, and `/bookmarks` is revalidated exactly on success. |
| Actions.InvalidInputIgnoresAuthAndDatabase | src/features/bookmarks/actions.ts:35-41 | Invalid input gets the same answer whoever asks and whatever the database holds, and never the sign-in error. |
| Actions.EmptyIdComesFirst | src/features/bookmarks/actions.ts:79-81 | An empty id is refused by delete and update before anything else. |
| Actions.MissingRowGivesFallback | src/features/bookmarks/actions.ts:63-68 | A statement returning neither an error nor a row gives the fallback message. |
| Actions.PolicyDenialIsNotAuthorized | src/features/bookmarks/actions.ts:63-68 | An insert refused by row-level security reads "Not authorized for this action." |
| Actions.InsertsWhatParsesToItself | src/features/bookmarks/actions.ts:53-61 | Input that parses to itself is inserted exactly as sent. |
| Actions.ServerParsesClientInputUnchanged | src/features/bookmarks/actions.ts:35-61 | What the form sends is parsed again on the server without change, so the row inserted carries exactly the client's title and url. |
| Redirects.SanitizeNextPath | src/app/auth/callback/route.ts:5-11 | The path is kept exactly when it starts with `/`. Otherwise, or when it is missing, the result is `/bookmarks`. Either way the result starts with `/`. |
| Redirects.SanitizeNextPathIdempotent | src/app/auth/callback/route.ts:5-11 | Sanitizing twice is sanitizing once. |
| Redirects.RedirectTo | src/features/auth/actions.ts:36 | The OAuth `redirectTo` is the base URL followed by exactly `/auth/callback?next=/bookmarks`. |
| Redirects.RedirectAsksForBookmarks | src/features/auth/actions.ts:36 | The `next` value of the callback address is `/bookmarks`, and both the sanitizer as written and the corrected one keep it. |
| Redirects.CallbackKeepsBookmarksPage | src/features/auth/actions.ts:36 | The `next` the sign-in asks for survives the callback's sanitizer. |
| Redirects.RemoveTabNewlineKeeps | src/app/auth/callback/route.ts:23 | A path without tabs or newlines reaches the URL parser unchanged. |
| Redirects.SanitizerPassesNetworkPath | src/app/auth/callback/route.ts:5-11 | `//evil.example` passes the sanitizer unchanged and is a network-path reference. |
| Redirects.SanitizeNextPathSameOrigin | src/app/auth/callback/route.ts:5-11 | The result starts with `/` and is never a network-path reference. Otherwise it agrees with the sanitizer. |
| Redirects.SanitizeNextPathSameOriginIdempotent | src/app/auth/callback/route.ts:5-11 | The corrected sanitizer is idempotent too. |
| Redirects.ForwardedProto | src/features/auth/actions.ts:10 | The forwarded protocol defaults to `https` only when the header is absent; a present value is used as it is. |
| Redirects.GetBaseUrl | src/features/auth/actions.ts:8-26 | The options are taken in order, and the result is never empty: a non-empty site URL; else the forwarded protocol, `://` and the non-empty forwarded host; else the non-empty origin header; else `http://localhost:3000`. |
| Redirects.SiteUrlOverridesHeaders | src/features/auth/actions.ts:13-15 | A configured site URL makes the headers irrelevant. |
| Redirects.ForwardedHostDefaultsToHttps | src/features/auth/actions.ts:9-19 | A forwarded host without a forwarded protocol gives `https://` and the host. |
| Redirects.EmptyForwardedProtoIsKept | src/features/auth/actions.ts:10-18 | A forwarded protocol header that is present but empty is used as it is, giving `://` and the host. |

## Left out

- **The realtime hook** (`use-bookmark-realtime.ts`) is subscription plumbing over the Supabase client. Its deliveries are the `Store.Event` sequence that interleaves between the begin and settle steps of each flow.
- **The Supabase client factories, cookies and environment reads** are external SDK and framework code. Auth replies and database replies are parameters.
- **The `GET` handler of the auth callback, `signInWithGoogleAction` and `signOutAction`.** The OAuth code exchange and the redirects are network I/O. Only `sanitizeNextPath` and the `redirectTo` string are modelled.
- **The WHATWG URL parser** (`new URL`, `toString`) is a parameter and not re-implemented. `Url.NormalizeIdempotent`, `Schemas.ParseIdempotent` and `Actions.ServerParsesClientInputUnchanged` assume the serialization properties that section 4.5 of the WHATWG URL Standard promises: no surrounding white space, the protocol first, and re-parsing to the same record. `Url.ProtocolRecheckRedundant` assumes a parser that reports the lower-cased scheme it was given.
- **Zod** is replaced by the checks it performs on string fields. Inputs that are not strings (a missing field, a number) are not modelled, because the typed callers (the form and the card) pass strings.
- **JsString.Trim and the title bound** count code points, whereas JavaScript counts UTF-16 code units. Titles containing characters outside the Basic Multilingual Plane can therefore hit the 120 limit earlier in the source than in the model.
- **Store.Init** takes the rows as given. The server query's `order by created_at desc` is a precondition of `Store.InitValid`, not modelled code.
- **`Date.now()`, `new Date().toISOString()` and `Date` parsing** are replaced by integer timestamps. The temporary id `temp-<now>` and the timestamp of an optimistic create are parameters. A collision between a temporary id and a server id is excluded where a property needs it (`Store.CreateFailureRestores`, `Store.CreateSettle`).
- **Toasts and `revalidatePath`** are values: `Store.Toast` in a settled flow, and `Actions.Effect` in an action's outcome.
- **React's scheduling of state updaters** is not modelled. Each `setX(updater)` is one atomic step on the current state, applied in program order. Realtime events can arrive only at an `await`. An event that React would batch between two synchronous updaters of one flow is not modelled.
- **`handleDelete`'s `removedBookmark`** is captured inside an updater. The model assumes that updater has run before the `await`, as React does for updaters queued from an event handler.
- **Markup, animation, styling and the presentational components** (layout, app shell, buttons, inputs, empty state, skeleton) are left out. Only the `disabled` conditions of the card and form buttons are modelled.
- **Store.DeleteFailureRestores and Store.UpdateFailureRestores** state exact restoration only with no realtime events during the request. With events, `Store.DeleteFlow` and `Store.UpdateFlow` promise that the item taken out or edited is back in the list, along with validity and the flags. The list as a whole is not promised back, because events may have changed it meanwhile. `Store.DeleteFailureWithConcurrentInsert` and `Store.UpdateOfRemovedItemReappears` show what does happen in two such interleavings.
- **Store.DeleteFailureRestores** requires that no earlier item ties with the deleted one. The upsert re-sorts, so ties can reorder (`Store.DeleteFailureReordersTies`). A rollback therefore does not always restore the state before the optimistic step exactly, although the rollback in bookmark-list.tsx lines 124-126 is meant to put the removed item back where it was.
- **Store.UpdateBegin** looks the id up in the render-time snapshot, as the code does (bookmark-list.tsx lines 141 and 176), not in the current list. `Store.UpdateOfRemovedItemReappears` shows the difference: an item deleted meanwhile comes back on a failed update.

## Findings

| source | as written | input that shows it | evidently intended | confidence | as-written member | corrected member |
|---|---|---|---|---|---|---|
| src/app/auth/callback/route.ts:5-11 | Any `next` that starts with `/` is kept and then resolved with `new URL(nextPath, requestUrl.origin)`. | `next=//evil.example` passes unchanged. The URL parser reads it as a network-path reference to the host `evil.example`, so the callback redirects off-site. | Only paths on the app's own origin are kept; anything else falls back to `/bookmarks`. | not executed; high | Redirects.SanitizerPassesNetworkPath | Redirects.SanitizeNextPathSameOrigin |
| src/components/bookmarks/bookmark-list.tsx:91-155 | `handleCreate`, `handleDelete` and `handleUpdate` await their server action with no `try`/`finally`. They clear the pending flag and undo the optimistic change only after the `await` returns. | The action rejects. For example, `createClient()` throws when the Supabase environment variables are missing (src/lib/supabase/server.ts:10-14), or the request to the server fails. Then `isCreating` stays true with the `temp-…` placeholder shown, a deleted item stays removed with its id pending, and an edit stays shown with its id pending. | A rejection is handled like a failed result: the optimistic change is undone and the flag cleared. | not executed; medium | Store.RejectionLeavesFlowsStuck | Store.RejectionSettlesFlows |
