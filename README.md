# Voyage-Mate: a verified model of the trip planner's state

Voyage-Mate is a Laravel and React travel planner. A signed-in user keeps
trips. Each trip holds an itinerary, expenses, a packing and task checklist,
and a journal of entries with images. A trip can be shared through a
tokenised public link, and anyone holding the link can comment. Users can also
browse, review and favourite destinations, and they get a dashboard of
statistics.

This project models the server side of that state as Dafny:

- the database tables;
- every controller action that reads or changes them;
- the pure helpers of the dashboard and destination pages.

It proves what each action promises.

- **Tables** (`Table`, `Schema`).
  - Every table is a sequence of keyed rows in insertion order.
  - One `Database` object holds all of them, with the key counter.
  - `Valid()` says every table has unique keys below that counter.
  - Every action is a method that modifies only the tables it touches. It is
    proved against pure functions, and lemmas state the properties of those
    functions.
- **Outcomes.** HTTP aborts are `Fail(NotFound)` (404), `Fail(Forbidden)`
  (403), `Fail(ValidationFailed)` (a rejected form), `Fail(Unprocessable)`
  (422) and `Fail(ServerError)` (a PHP error or a failing insert). `Ok` is the
  redirect or the JSON answer.
- **Sorting** (`Sorting`). `ORDER BY` is a stable sort under a total preorder.
  Contracts speak only of sortedness and of the multiset of rows, so they hold
  for any order the database gives ties.
- **Share links** (`ShareLinkModel`, `ShareLinkController`).
  - A link's lifecycle: active, revoked or expired.
  - Generating a link revokes the trip's earlier links, so one unrevoked link
    remains.
  - Tokens are unique.
  - Old holders are locked out.
- **The public page and its comments** (`SharedTripController`,
  `SharedTripCommentController`).
  - The page shows the trip behind the active token.
  - Only the signed-in author may edit or delete a comment.
  - A comment posted without a session can never be edited.
- **Journal** (`JournalController`).
  - Entries with image positions. New images go after the current maximum.
  - The reorder guard: the count of the entry's listed images must equal the
    list length. This holds exactly when the list is duplicate-free and every
    id is one of the entry's images.
  - Reordering writes each listed image's index as its position.
- **Dashboard** (`DashboardController`, `DashboardPage`).
  - Counts and the next upcoming trip.
  - Days until that trip, clamped at 0.
  - A budget percentage rounded half away from zero and not capped.
  - Today's items in time order.
  - The page's clock formatting, mood index and greeting rotation.
- **Trips and their children** (`TripController`, `ExpenseController`,
  `ChecklistController`, `ItineraryController`).
  - Owner checks and field rules.
  - Toggles that undo themselves.
  - Updates that change only the fillable fields.
  - The delete cascade.
- **Destinations** (`DestinationController`, `DestinationsIndexPage`,
  `FavoriteController`, `ReviewController`).
  - Filter, sort and page.
  - The favourite toggle.
  - The review upsert with one review per user and destination.
  - The pagination labels.

Modelling conventions:

- Keys are integers of at least 1. Because of that, PHP's `(int) null`, which
  is 0, never equals a signed-in user's id.
- Money is in integer cents.
- Dates are day numbers, and timestamps are integers.
- Clock readings (`now`, today, the month bounds) are parameters.
- Random tokens are parameters too. `Str::random(64)` becomes a 64-character
  argument.

Where the code does something other than what it evidently intends, the model follows the code:

- `reorderImages` accepts a list naming only some of the entry's images.
- The dashboard sends each of today's items with a NULL `date`. The item
  model casts no `date`, so `optional($item->date)->toDateString()` calls a
  method on a plain string through `optional`, and that yields NULL.
- The journal `index` throws for its owner, because the trip model declares
  no `journalEntries` relation. This is recorded under "## Findings". The
  model keeps the evidently intended listing as `JournalController.Index`.
- A journal `store` without a body passes validation but fails on the
  NOT NULL `body` column.
- An expense whose trip row is gone can be updated by a request with no
  session, because `optional(null)->user_id === Auth::id()` compares NULL with
  NULL.

## Model

| member | source | states |
|---|---|---|
| Common.IntOrZero | app/Http/Controllers/SharedTripCommentController.php:49 | `(int)` of a nullable user id is 0 exactly for NULL, and never a valid id |
| Schema.OwnerGate | app/Http/Controllers/ExpenseController.php:56-59 | 404 iff the trip row is missing; Ok only when the user owns it, and with unique keys iff |
| Schema.ParentGate | app/Http/Controllers/ChecklistItemController.php:29-38 | an owner check made through a child's trip: server error iff the trip row is gone, Ok iff the user owns it, else 403 |
| Relations.ItineraryOf | app/Models/Trip.php:37-40 | the trip's items ordered by date then time, exactly the rows with that trip_id |
| Relations.ExpensesOf | app/Models/Trip.php:42-45 | a row is listed iff it is an expense of the trip |
| Relations.ChecklistOf | app/Models/Trip.php:47-50 | a row is listed iff it is a checklist item of the trip |
| Relations.ImagesOf | app/Http/Controllers/TripJournalEntryController.php:28 | the entry's images in position order, exactly the rows of that entry |
| Relations.ItineraryOrder | app/Models/Trip.php:39 | ordering by date then time (NULL first) is total and transitive |
| Relations.SumAppend | app/Http/Controllers/SharedTripController.php:29 | the sum of amounts distributes over concatenation |
| Relations.SumNonNegative | app/Http/Controllers/ExpenseController.php:18 | amounts validated at least 0 give a non-negative sum |
| Relations.TotalSpentAfterInsert | app/Http/Controllers/SharedTripController.php:29 | a new expense raises its own trip's total by its amount and leaves other trips' totals |
| ShareLinkModel.StateAt | app/Models/TripShareLink.php:32-40 | a link is Active iff not revoked and unexpired; Revoked iff stamped; Expired only with an expiry at or before now |
| ShareLinkModel.RevokedNeverActive | app/Models/TripShareLink.php:35 | a revoked link is never active |
| ShareLinkModel.ExpiresAtNowIsInactive | app/Models/TripShareLink.php:37-38 | the expiry comparison is strict: at the expiry instant the link is inactive |
| ShareLinkModel.InactiveStaysInactive | app/Models/TripShareLink.php:32-40 | once inactive, a link stays inactive as time passes |
| ShareLinkModel.CommentsOf | app/Models/TripShareLink.php:41-44 | a comment is listed iff it belongs to the link |
| ShareLinkModel.ActiveByToken | app/Http/Controllers/SharedTripController.php:13-15 | finds an active link carrying the token, and finds none iff no such link exists |
| ShareLinkController.Store | app/Http/Controllers/TripShareLinkController.php:12-33 | owner only; revokes the trip's unrevoked links, then appends an unexpired, unrevoked link with the token under the next key, which advances by one; a taken token fails after the revocation and leaves the key counter |
| ShareLinkController.Destroy | app/Http/Controllers/TripShareLinkController.php:35-46 | owner only; the links become the trip's links with every unrevoked one stamped |
| ShareLinkController.RevokeInPlace | app/Http/Controllers/TripShareLinkController.php:17-19 | the row-by-row loop ends in exactly the bulk revocation |
| ShareLinkController.TokenIn | database/migrations/2025_12_19_183405_create_trip_share_links_table.php:16 | the loop answers true iff some link already carries the token |
| ShareLinkController.RevokeKeepsTokens | app/Http/Controllers/TripShareLinkController.php:17-19 | revocation neither adds nor removes a token |
| ShareLinkController.RevokeAllChangesOnlyStamps | app/Http/Controllers/TripShareLinkController.php:17-19 | only revoked_at changes, and only on this trip's unrevoked rows |
| ShareLinkController.RevokeAllClears | app/Http/Controllers/TripShareLinkController.php:17-19 | afterwards the trip has no unrevoked link |
| ShareLinkController.RevokeAllIdempotent | app/Http/Controllers/TripShareLinkController.php:39-41 | revoking again keeps the first timestamps |
| ShareLinkController.StoreLeavesExactlyOne | app/Http/Controllers/TripShareLinkController.php:17-28 | after store the trip's only unrevoked link is the new one |
| ShareLinkController.StoreAddsOneRow | app/Http/Controllers/TripShareLinkController.php:17-28 | the trip's link count grows by one; revoked rows are kept |
| ShareLinkController.OtherTripsUntouched | app/Http/Controllers/TripShareLinkController.php:17-18 | links of other trips are unchanged |
| ShareLinkController.RevokePreservesSingle | app/Http/Controllers/TripShareLinkController.php:39-41 | revocation keeps at most one unrevoked link per trip |
| ShareLinkController.StorePreservesInvariants | app/Http/Controllers/TripShareLinkController.php:17-28 | store keeps one unrevoked link per trip and unique tokens |
| ShareLinkController.StoredLinkResolves | app/Http/Controllers/TripShareLinkController.php:22-28 | the new token resolves to the new link at any time |
| ShareLinkController.OldTokensStopResolving | app/Http/Controllers/TripShareLinkController.php:17-19 | every earlier token of the trip stops resolving |
| SharedTripController.ViewerOf | app/Http/Controllers/SharedTripController.php:36-37 | empty name and e-mail without a session, the user's otherwise |
| SharedTripController.Show | app/Http/Controllers/SharedTripController.php:11-43 | 404 iff no active link has the token or its trip is gone; else that trip, with exactly its expenses and checklist, the total spent, exactly its itinerary items sorted, the viewer's name and e-mail, and exactly the link's comments newest first |
| Relations.ItineraryMembers | app/Models/Trip.php:37-40 | a trip's itinerary holds exactly the items with its trip_id |
| SharedTripController.ShowsThatLinksComments | app/Http/Controllers/SharedTripController.php:21-23 | with unique tokens, the comments shown are exactly those of the link holding the token, and it is active |
| SharedTripCommentController.CommentGate | app/Http/Controllers/SharedTripCommentController.php:38-49 | 404 for a missing comment or inactive token, 403 without a session; never Ok for a guest |
| SharedTripCommentController.StoreComment | app/Http/Controllers/SharedTripCommentController.php:12-35 | 404 without an active link, rejected form unchanged, else one comment on that link with the session's user id |
| SharedTripCommentController.UpdateComment | app/Http/Controllers/SharedTripCommentController.php:38-62 | after the gate and the body rule only that comment's body changes |
| SharedTripCommentController.DestroyComment | app/Http/Controllers/SharedTripCommentController.php:65-83 | after the gate exactly that comment is deleted |
| SharedTripCommentController.GateOkIff | app/Http/Controllers/SharedTripCommentController.php:40-49 | the gate passes iff the signed-in user wrote this comment on the active link with this token |
| SharedTripCommentController.GuestCommentImmutable | app/Http/Controllers/SharedTripCommentController.php:49 | a comment with a NULL author can be edited or deleted by nobody |
| SharedTripCommentController.OtherUsersForbidden | app/Http/Controllers/SharedTripCommentController.php:49 | a signed-in non-author gets 403 |
| SharedTripCommentController.ForeignCommentNotFound | app/Http/Controllers/SharedTripCommentController.php:45 | a comment of another link is 404 through this token |
| SharedTripCommentController.EditChangesOnlyBody | app/Http/Controllers/SharedTripCommentController.php:55-57 | only the body of the one comment changes |
| SharedTripCommentController.DeleteRemovesTheComment | app/Http/Controllers/SharedTripCommentController.php:78 | the table shrinks by one, the comment is gone, every other comment stays |
| JournalController.EntryGate | app/Http/Controllers/TripJournalEntryController.php:86-89 | Ok iff the trip is the user's and the entry belongs to it; 403 iff the trip is someone else's and the entry exists; else 404 |
| JournalController.MaxPosition | app/Http/Controllers/TripJournalEntryController.php:106 | an upper bound of the entry's positions and one of them, or 0 when it has no image |
| JournalController.AttachImages | app/Http/Controllers/TripJournalEntryController.php:68-78 | the loop appends one row per upload, in order, with consecutive keys and positions |
| JournalController.StoreEntry | app/Http/Controllers/TripJournalEntryController.php:39-83 | owner only; a rejected form or a missing body writes nothing; else the entry, then its images at positions 0..n-1 |
| JournalController.UpdateEntry | app/Http/Controllers/TripJournalEntryController.php:86-120 | after the gate, date, title and body are replaced and new images are appended after the maximum |
| JournalController.UploadImages | app/Http/Controllers/TripJournalEntryController.php:133-166 | after the gate, an empty list is rejected; else it answers with the rows appended after the maximum |
| JournalController.DestroyEntry | app/Http/Controllers/TripJournalEntryController.php:122-130 | after the gate, the entry and its images go; nothing else changes |
| JournalController.ImageGate | app/Http/Controllers/TripJournalEntryController.php:168-172 | Ok iff the entry gate passes and the image exists and is the entry's |
| JournalController.DeleteImage | app/Http/Controllers/TripJournalEntryController.php:168-178 | after the gate, exactly that image row is deleted |
| JournalController.OwnedAmong | app/Http/Controllers/TripJournalEntryController.php:192 | counts the entry's images whose key is listed, never more than the table |
| JournalController.ReorderImages | app/Http/Controllers/TripJournalEntryController.php:180-202 | after the gate, an empty list is rejected; 422 unless the guard holds; else the loop ends in the reordered table |
| JournalController.Index | app/Http/Controllers/TripJournalEntryController.php:23-37 | owner only; exactly the trip's entries, newest first, each with exactly its images in position order (the intended listing; see Findings) |
| JournalController.IndexAsWritten | app/Http/Controllers/TripJournalEntryController.php:23-30 | the gate's 404 or 403 for others; for the owner, a server error, since the trip model has no `journalEntries` relation |
| JournalController.OwnerIndexThrows | app/Http/Controllers/TripJournalEntryController.php:27 | for every owner request the code as written fails, while the intended listing succeeds |
| JournalController.StoredPositionsFromZero | app/Http/Controllers/TripJournalEntryController.php:69-76 | the k-th stored image gets position k and the k-th fresh key |
| JournalController.AppendedAfterExisting | app/Http/Controllers/TripJournalEntryController.php:106-116 | appended images sit strictly after every existing image of the entry and keep upload order |
| JournalController.FirstAppendStartsAtOne | app/Http/Controllers/TripJournalEntryController.php:143-150 | for an entry without images the first appended position is 1 |
| JournalController.ReorderAcceptedIff | app/Http/Controllers/TripJournalEntryController.php:190-193 | the guard holds iff the list is duplicate-free and every id is an image of the entry |
| JournalController.ReorderStep | app/Http/Controllers/TripJournalEntryController.php:195-199 | one loop iteration extends the reordering by the next listed id |
| JournalController.ReorderPlacesEach | app/Http/Controllers/TripJournalEntryController.php:195-199 | with distinct ids, image ids[k] ends at position k with its other fields kept |
| JournalController.ReorderKeepsUnlisted | app/Http/Controllers/TripJournalEntryController.php:195-199 | unlisted images and other entries' images keep their rows |
| JournalController.ProperSubsetAccepted | app/Http/Controllers/TripJournalEntryController.php:190-193 | example: a list naming one of two images passes and moves only that image |
| DashboardController.Upcoming | app/Http/Controllers/DashboardController.php:32-35 | one of the user's trips starting today or later with the earliest start, or none iff there is no such trip |
| DashboardController.DaysUntil | app/Http/Controllers/DashboardController.php:40-44 | never negative; the exact distance for a future start |
| DashboardController.UpcomingData | app/Http/Controllers/DashboardController.php:37-52 | present iff there is an upcoming trip; carries that trip's title, destination and start date, and days until equals start minus today |
| DashboardController.RoundDiv | app/Http/Controllers/DashboardController.php:64 | the nearest integer to n/d, halves away from zero, with the sign of n |
| DashboardController.UsedBudgetPercent | app/Http/Controllers/DashboardController.php:62-65 | 0 without a positive budget; else the nearest integer to 100·spent/budget |
| DashboardController.TodayRows | app/Http/Controllers/DashboardController.php:85-91 | exactly the items dated today on the user's own trips, sorted by time |
| DashboardController.TodayItems | app/Http/Controllers/DashboardController.php:85-104 | one row per such item, in time order, with the item's id, title, time, location and notes and its trip's title and destination; the date field is NULL |
| DashboardController.Dashboard | app/Http/Controllers/DashboardController.php:14-121 | active equals total equals the user's trip count; favourites 0; the upcoming trip is `UpcomingData` (days until at least 0); the percentage is `UsedBudgetPercent` of the user's spent total and budget; the month count is `UpcomingThisMonth`, within the total; the items are `TodayItems` |
| DashboardController.TotalTripsCountsOwnOnly | app/Http/Controllers/DashboardController.php:21-23 | another user's trip does not change the count; one's own adds one |
| DashboardController.GuestSeesNothing | app/Http/Controllers/DashboardController.php:16-21 | without a session: no trips, no upcoming trip, no items today |
| DashboardController.MonthWithinTotal | app/Http/Controllers/DashboardController.php:74-77 | this month's upcoming count never exceeds the trip count |
| DashboardController.PercentNotCapped | app/Http/Controllers/DashboardController.php:62-65 | example: 250 for two and a half budgets spent |
| DashboardController.PercentHalfRoundsUp | app/Http/Controllers/DashboardController.php:64 | example: 0.5 percent shows as 1 |
| DashboardController.PercentWithinBudget | app/Http/Controllers/DashboardController.php:62-65 | spending within the budget gives 0..100 |
| DashboardController.PercentNonNegative | app/Http/Controllers/DashboardController.php:58-65 | with non-negative amounts the percentage is never negative |
| DashboardPage.Split | resources/js/pages/dashboard.tsx:97 | at least one piece |
| DashboardPage.JoinSplit | resources/js/pages/dashboard.tsx:97 | joining the pieces on the separator gives the text back |
| DashboardPage.SplitPieces | resources/js/pages/dashboard.tsx:97-98 | no piece holds the separator; one piece more than separators, so two or more iff the text has a colon |
| DashboardPage.PadTwo | resources/js/pages/dashboard.tsx:99-100 | at least two characters; short text gets leading zeros, longer text is unchanged |
| DashboardPage.FormatTime | resources/js/pages/dashboard.tsx:88-105 | "--:--" for no time or a short time without a colon; the first five characters of a long one; always at least five characters |
| DashboardPage.ShortTimeIsHourMinute | resources/js/pages/dashboard.tsx:96-102 | a short time with a colon shows its first two colon-free pieces, zero-filled and joined by a colon |
| DashboardPage.ShortTimeZeroFilled | resources/js/pages/dashboard.tsx:88-105 | example: "9:5" shows as "09:05", "12:30:00" as "12:30" |
| DashboardPage.JsRem | resources/js/pages/dashboard.tsx:155 | JavaScript's remainder takes the sign of the dividend |
| DashboardPage.MoodIndexInRange | resources/js/pages/dashboard.tsx:153-155 | non-negative statistics pick one of the four moods |
| DashboardPage.NegativeBaseMissesMoods | resources/js/pages/dashboard.tsx:153-155 | example: a negative sum gives index -1 |
| DashboardPage.Greeted | resources/js/pages/dashboard.tsx:385-389 | at most four items, item i with greeting i mod 5 |
| DashboardPage.GreetingsDistinct | resources/js/pages/dashboard.tsx:385-389 | the shown items get pairwise different greetings |
| TripController.StartOrder | app/Http/Controllers/TripController.php:15 | latest start first, NULL last, is a total preorder |
| TripController.Index | app/Http/Controllers/TripController.php:12-21 | exactly the user's trips, latest start first, undated trips after dated ones |
| TripController.Store | app/Http/Controllers/TripController.php:37-62 | a rejected form writes nothing; without a session the insert fails; else one trip owned by the user |
| TripController.Show | app/Http/Controllers/TripController.php:64-74 | owner only; the trip with exactly its expenses and checklist, exactly its itinerary items sorted, and the total spent |
| TripController.Edit | app/Http/Controllers/TripController.php:76-84 | owner only; the trip as stored |
| TripController.Update | app/Http/Controllers/TripController.php:86-112 | owner only; a form failing the rules or the date order writes nothing; else that row gets the form's fields and keeps its owner |
| TripController.Destroy | app/Http/Controllers/TripController.php:116-123 | owner only; the trip and every row hanging off it, directly or through an entry or a link, go |
| TripController.DeleteTripRows | app/Http/Controllers/TripController.php:120 | the trip row and its expenses go |
| TripController.DeletePlanning | app/Http/Controllers/TripController.php:120 | the trip's itinerary items and checklist go |
| TripController.DeleteJournal | app/Http/Controllers/TripController.php:120 | the trip's entries and their images go |
| TripController.DeleteSharing | app/Http/Controllers/TripController.php:120 | the trip's links and their comments go |
| TripController.MirrorLegacy | app/Http/Controllers/TripController.php:52-57 | name copies title and details copies description when absent; nothing else changes |
| TripController.Fill | app/Models/Trip.php:16-24 | mass assignment keeps exactly the fillable keys |
| TripController.MirroringIsDropped | app/Http/Controllers/TripController.php:99-107 | the mirrored keys never reach the row |
| TripController.StoreLaxerThanUpdate | app/Http/Controllers/TripController.php:90-97 | example: a trip ending before it starts passes store's rules but fails update's |
| TripController.DestroyLeavesNoOrphans | app/Http/Controllers/TripController.php:120 | no remaining row refers to the deleted trip |
| TripController.DestroyKeepsOtherTrips | app/Http/Controllers/TripController.php:120 | rows of other trips survive |
| TripController.UpdateTouchesOneRow | app/Http/Controllers/TripController.php:107 | only the trip's row changes, and it keeps its owner |
| ExpenseController.UpdateGate | app/Http/Controllers/ExpenseController.php:32 | Ok iff the user owns the expense's trip, or the trip is gone and there is no session |
| ExpenseController.Store | app/Http/Controllers/ExpenseController.php:12-28 | owner only; a rejected form writes nothing; else one expense on the route trip |
| ExpenseController.Update | app/Http/Controllers/ExpenseController.php:30-44 | 404, then the gate, then the rules; the expense gets the form's fields on its own trip |
| ExpenseController.Destroy | app/Http/Controllers/ExpenseController.php:46-54 | 404, then the owner check through the trip (a missing trip is a server error), then exactly that row goes |
| ExpenseController.AmountsStayNonNegative | app/Http/Controllers/ExpenseController.php:18 | storing or updating keeps every amount non-negative |
| ExpenseController.StoreRaisesTripTotal | app/Http/Controllers/ExpenseController.php:23-25 | the route trip's total rises by the amount; other trips keep theirs |
| ExpenseController.OrphanUpdateGate | app/Http/Controllers/ExpenseController.php:32 | an orphaned expense passes for no session and fails for every user |
| ExpenseController.DestroyRemovesOne | app/Http/Controllers/ExpenseController.php:51 | the table shrinks by one; every other expense stays |
| ChecklistController.KindOf | app/Http/Controllers/ChecklistItemController.php:17 | "packing" and "task" name the two kinds; anything else is rejected |
| ChecklistController.Store | app/Http/Controllers/ChecklistItemController.php:12-27 | owner only; a bad type or title writes nothing; else one item on the route trip, not done |
| ChecklistController.Toggle | app/Http/Controllers/ChecklistItemController.php:29-39 | 404, then the owner check through the trip; the item's done flag flips |
| ChecklistController.Update | app/Http/Controllers/ChecklistItemController.php:41-53 | 404, then the owner check, then the title rule; title and due date are written |
| ChecklistController.Destroy | app/Http/Controllers/ChecklistItemController.php:55-63 | 404, then the owner check; exactly that row goes |
| ChecklistController.ToggleTwiceRestores | app/Http/Controllers/ChecklistItemController.php:34-36 | two toggles give back the table |
| ChecklistController.ToggleFlipsOnlyThatFlag | app/Http/Controllers/ChecklistItemController.php:34-36 | only the one item's done flag changes |
| ChecklistController.EditKeepsKindAndDone | app/Http/Controllers/ChecklistItemController.php:45-50 | only title and due date change; type, done flag and trip stay |
| ItineraryController.Store | app/Http/Controllers/ItineraryItemController.php:12-29 | owner only; needs a date and a title; one item on the route trip with no time and not done |
| ItineraryController.Toggle | app/Http/Controllers/ItineraryItemController.php:41-48 | no owner check: 404 iff the item is missing, else its flag flips |
| ItineraryController.Update | app/Http/Controllers/ItineraryItemController.php:50-65 | 404, then the owner check, then the rules; date, title, location and notes are written |
| ItineraryController.Destroy | app/Http/Controllers/ItineraryItemController.php:31-39 | 404, then the owner check; exactly that row goes |
| ItineraryController.ToggleTwiceRestores | app/Http/Controllers/ItineraryItemController.php:44-45 | two toggles give back the table |
| ItineraryController.ToggleFlipsFlag | app/Http/Controllers/ItineraryItemController.php:44-45 | the item's flag flips and its other fields stay |
| ItineraryController.EditKeepsTime | app/Models/ItineraryItem.php:14-21 | an edit never writes the time, and leaves other items alone |
| FavoriteController.Toggle | app/Http/Controllers/FavoriteController.php:15-36 | 404 for an unknown destination; else the pair flips and the reply says whether it is now a favourite |
| FavoriteController.ReplyMatchesMembership | app/Http/Controllers/FavoriteController.php:58-66 | the isFavorited answer after a toggle is the opposite of the one before |
| FavoriteController.ToggleTwiceRestores | app/Http/Controllers/FavoriteController.php:20-35 | two toggles give back the set |
| FavoriteController.OtherPairsUntouched | app/Http/Controllers/FavoriteController.php:20-33 | every other (user, destination) pair is unchanged |
| ReviewController.Find | ReviewController.php:21-25 | the first row with the key, or none iff no row has it |
| ReviewController.Store | ReviewController.php:14-32 | 404 for an unknown destination, a rejected form writes nothing, else the upsert; a key is used only when a row is inserted; keeps one review per pair |
| ReviewController.UpsertKeepsOnePerPair | ReviewController.php:21-30 | the upsert keeps at most one review per (user, destination) |
| ReviewController.UpsertStoresTheReview | ReviewController.php:21-30 | exactly one row has the key afterwards, holding the new comment and rating |
| ReviewController.UpsertTouchesOnlyThePair | ReviewController.php:21-30 | other users' and destinations' reviews and all keys are unchanged; no new row when the pair existed |
| DestinationController.NameOrder | DestinationController.php:31 | ordering by name is a total preorder |
| DestinationController.Listing | DestinationController.php:14-31 | the matching destinations, sorted by name, each as often as stored |
| DestinationController.CurrentPage | DestinationController.php:31 | the requested page when at least 1, else 1 |
| DestinationController.LastPage | DestinationController.php:31 | the number of ten-row pages n results fill |
| DestinationController.Index | DestinationController.php:12-37 | at most ten matching destinations in name order, the match count, and the page numbers; the items are the page's window of the sorted listing; empty past the last page |
| DestinationController.Show | DestinationController.php:40-46 | 404 iff the destination is unknown; else it with exactly its reviews |
| DestinationController.ListingMembers | DestinationController.php:15-30 | a destination is listed iff it passes every filled filter |
| DestinationController.NoFiltersListsAll | DestinationController.php:14 | with no filter every destination is listed |
| DestinationController.SearchLooksAtFourColumns | DestinationController.php:15-24 | the term matches iff it occurs in the name, country, type or city |
| DestinationController.PagesCoverListing | DestinationController.php:31 | result k is item k mod 10 of page k div 10 + 1 |
| DestinationsIndexPage.Lower | resources/js/pages/destinations/index.tsx:59 | same length; capitals become small letters and nothing else changes |
| DestinationsIndexPage.TagEnd | resources/js/pages/destinations/index.tsx:61 | the first `>` reached before a line break, or none iff every `>` lies beyond a line break |
| DestinationsIndexPage.StripTags | resources/js/pages/destinations/index.tsx:61 | never lengthens the text |
| DestinationsIndexPage.Label | resources/js/pages/destinations/index.tsx:58-61 | "Previous" if the label mentions previous, else "Next" if it mentions next, else the label with its tags cut out (and no tag left); unchanged without tags |
| DestinationsIndexPage.Href | resources/js/pages/destinations/index.tsx:63 | "#" for a missing or empty URL, else the URL |
| DestinationsIndexPage.StripKeepsUnclosed | resources/js/pages/destinations/index.tsx:61 | an unclosed `<` stays unclosed after stripping |
| DestinationsIndexPage.StripLeavesNoTag | resources/js/pages/destinations/index.tsx:61 | nothing tag-shaped survives |
| DestinationsIndexPage.StripWithoutTag | resources/js/pages/destinations/index.tsx:61 | text without a tag passes unchanged |
| DestinationsIndexPage.StripIdempotent | resources/js/pages/destinations/index.tsx:61 | stripping twice is stripping once |
| DestinationsIndexPage.TagEndAfter | resources/js/pages/destinations/index.tsx:61 | the lazy match ends at the first `>` when the tag's inside has no `>` and no line break |
| DestinationsIndexPage.StripTagPrefix | resources/js/pages/destinations/index.tsx:61 | a leading tag is cut out whole and stripping goes on after it |
| DestinationsIndexPage.StripKeepsText | resources/js/pages/destinations/index.tsx:61 | a character that does not open a tag is kept in place |
| DestinationsIndexPage.LabelStripsMarkup | resources/js/pages/destinations/index.tsx:61 | example: the label `<b>2</b>` is shown as `2` |
| DestinationsIndexPage.DefaultLabels | resources/js/pages/destinations/index.tsx:59-60 | example: the paginator's default labels become "Previous" and "Next", and previous wins over next |

## Findings

| source | as written | input that shows it | evidently intended | confidence | as-written member | corrected member |
|---|---|---|---|---|---|---|
| app/Http/Controllers/TripJournalEntryController.php:27 | `$trip->journalEntries()` is called, but app/Models/Trip.php declares no such relation, so the call reaches the query builder and throws | any `index` request by the trip's owner | a `hasMany(TripJournalEntry::class)` relation, listing the trip's entries newest first with their images | not executed; the relation is absent from the model file | JournalController.IndexAsWritten (with JournalController.OwnerIndexThrows) | JournalController.Index |

## Left out

- Requests without a session are modelled as `user == None` where the code reads `Auth::id()`. The review action takes a user because the auth middleware guards it (routes/web.php:20-23). The favourite routes are not in routes/web.php, and the model assumes a signed-in user for `toggle` and `isFavorited`.
- File storage: the stored path, `Storage::delete`, `asset()` URLs and MIME checks. Uploads are values that carry their validity.
- Image deletion from disk on `deleteImage`.
- Flash messages, redirects and Inertia rendering.
- Date parsing and the `date` rule: dates are already day numbers.
- Time of day is an optional string compared as text.
- PHP's `round` works on a float. The model rounds the exact rational instead; the two can differ only where the float quotient is inexact.
- SQL `LIKE` case folding and `%`/`_` wildcards inside a search term, and database collation. Name order is by code point.
- Laravel's `TrimStrings` and `ConvertEmptyStringsToNull` middleware. Inputs arrive already trimmed, and an empty field is `None`.
- Partial updates: `validate` returns only the keys sent. The model writes every form field, and an absent nullable field counts as NULL.
- The `email` rule is approximated by a single `@` with text on both sides.
- The destination model's average rating (a float mean), the favourites `list` view, and `create` (a form prefill with no state).
- The weather service, the currency converter, the trip create form prefill, and every other page component.
- Concurrency: two simultaneous toggles or upserts. Each action runs alone.
- Per-table auto-increment counters are one shared key counter; only the freshness of keys matters to the model.
- The `whereBetween` of the dashboard on a date column compared with timestamps is modelled as a comparison of day numbers.
- `sort_order` on itinerary items, which nothing writes.
- Referential integrity is not part of `Valid()`. Child rows whose trip is gone are representable, and the controllers' behaviour for them is modelled. The foreign keys' cascades are modelled only where a parent is deleted: the trip `destroy` and the journal `destroy`.
- The itinerary `is_done` column is not in the creating migration; the model gives items a done flag that starts false.
- DestinationsIndexPage.Lower: only ASCII letters are folded, not the full Unicode case mapping of `toLowerCase`.
- FavoriteController.Toggle: favourites are a set, so duplicate (user, destination) rows, which a missing unique index would allow, are not represented.
- ReviewController.Store: `updateOrCreate` is not atomic; the one-review-per-pair invariant holds only without concurrent submissions.
- DestinationController.CurrentPage: a non-numeric `page` parameter is modelled as absent.
- JournalController.Index: models the listing through the `hasMany(TripJournalEntry::class)` relation that app/Models/Trip.php does not declare. As written, `index` throws for the owner; `JournalController.IndexAsWritten` models that.
