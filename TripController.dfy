/**
 * The user's trips: listing, creating, showing, editing and deleting. Every
 * action on one trip requires the trip to be the user's; deleting a trip
 * removes, through the foreign keys' cascades, everything that hangs off it.
 */
module TripController {
  import opened Common
  import opened Table
  import opened Schema
  import opened Sorting
  import opened Relations

  /** The trip form; `None` is a missing or empty field. Budget in cents. */
  datatype TripForm = TripForm(
    title: Option<string>,
    destination: Option<string>,
    startDate: Option<int>,
    endDate: Option<int>,
    description: Option<string>,
    budget: Option<int>)

  datatype TripPage = TripPage(
    trip: Row<Trip>,
    itinerary: seq<Row<ItineraryItem>>,
    expenses: seq<Row<Expense>>,
    checklist: seq<Row<ChecklistItem>>,
    totalSpent: int)

  /** The rules `store` and `update` share: a title of 1..255, a destination of at most 255, a budget of at least 0. */
  predicate ValidTrip(f: TripForm)
  {
    && FilledAtMost(f.title, 255)
    && OptionalAtMost(f.destination, 255)
    && (f.budget.None? || f.budget.value >= 0)
  }

  /**
   * `end_date: after_or_equal:start_date`, which `update` alone asks for. A
   * missing start date leaves nothing to compare with, and the rule passes.
   */
  predicate DatesOrdered(f: TripForm)
  {
    f.startDate.None? || f.endDate.None? || f.endDate.value >= f.startDate.value
  }

  /** The record the validated form describes for owner `owner`. */
  function TripOf(owner: Id, f: TripForm): Trip
    requires f.title.Some?
  {
    Trip(owner, f.title.value, f.destination, f.startDate, f.endDate, f.description, f.budget)
  }

  /** `latest('start_date')`: the later start first; NULL counts as earliest and goes last. */
  predicate StartsLaterOrSame(x: Row<Trip>, y: Row<Trip>)
  {
    OptIntLe(y.val.startDate, x.val.startDate)
  }

  lemma StartOrder()
    ensures TotalPreorder(StartsLaterOrSame)
  {
  }

  /** `index`: the user's trips, latest start first. */
  function Index(trips: seq<Row<Trip>>, user: Option<Id>): (r: seq<Row<Trip>>)
    ensures forall x :: x in r <==> x in trips && user == Some(x.val.userId)
    ensures SortedBy(r, StartsLaterOrSame)
    ensures forall j, k :: 0 <= j < k < |r| && r[k].val.startDate.Some? ==> r[j].val.startDate.Some?
  {
    StartOrder();
    var mine := Where(trips, (t: Trip) => user == Some(t.userId));
    var sorted := Sort(mine, StartsLaterOrSame);
    assert forall x :: x in sorted <==> x in mine by {
      forall x ensures x in sorted <==> x in mine {
        SameElements(sorted, mine, x);
      }
    }
    sorted
  }

  /** `store`. The owner is the signed-in user; without one the NOT NULL `user_id` makes the insert fail. */
  method Store(db: Database, user: Option<Id>, form: TripForm) returns (r: Outcome)
    requires db.Valid()
    modifies db`trips, db`nextId
    ensures db.Valid()
    ensures !ValidTrip(form) ==> r == Fail(ValidationFailed) && unchanged(db)
    ensures ValidTrip(form) && user.None? ==> r == Fail(ServerError) && unchanged(db)
    ensures ValidTrip(form) && user.Some? ==>
      r == Ok && db.trips == old(db.trips) + [Row(old(db.nextId), TripOf(user.value, form))]
      && db.nextId == old(db.nextId) + 1
  {
    if !ValidTrip(form) {
      return Fail(ValidationFailed);
    }
    if user.None? {
      return Fail(ServerError);
    }
    BelowExtend(db.trips, db.nextId, TripOf(user.value, form));
    db.trips := db.trips + [Row(db.nextId, TripOf(user.value, form))];
    db.nextId := db.nextId + 1;
    r := Ok;
  }

  /** `show`: the trip with its relations and the sum of its expenses. */
  function Show(
    trips: seq<Row<Trip>>, items: seq<Row<ItineraryItem>>, expenses: seq<Row<Expense>>,
    checklist: seq<Row<ChecklistItem>>, user: Option<Id>, tripId: Id): (r: Result<TripPage>)
    ensures r.Failure? <==> OwnerGate(trips, user, tripId) != Ok
    ensures r.Failure? ==> r.error == OwnerGate(trips, user, tripId).error
    ensures r.Success? ==> r.value.trip in trips && r.value.trip.id == tripId && user == Some(r.value.trip.val.userId)
    ensures r.Success? ==> r.value.totalSpent == TotalSpent(expenses, tripId)
    ensures r.Success? ==> forall x :: x in r.value.expenses <==> x in expenses && x.val.tripId == tripId
    ensures r.Success? ==> forall x :: x in r.value.checklist <==> x in checklist && x.val.tripId == tripId
    ensures r.Success? ==> SortedBy(r.value.itinerary, ItineraryLe)
    ensures r.Success? ==> forall x :: x in r.value.itinerary <==> x in items && x.val.tripId == tripId
  {
    match Lookup(trips, tripId)
    case None => Failure(NotFound)
    case Some(t) =>
      if user != Some(t.userId) then Failure(Forbidden)
      else
        ItineraryMembers(items, tripId);
        Success(TripPage(
        Row(tripId, t),
        ItineraryOf(items, tripId),
        ExpensesOf(expenses, tripId),
        ChecklistOf(checklist, tripId),
        TotalSpent(expenses, tripId)))
  }

  /** `edit`: the trip itself, to the owner only. */
  function Edit(trips: seq<Row<Trip>>, user: Option<Id>, tripId: Id): (r: Result<Trip>)
    ensures r.Failure? <==> OwnerGate(trips, user, tripId) != Ok
    ensures r.Failure? ==> r.error == OwnerGate(trips, user, tripId).error
    ensures r.Success? ==> Row(tripId, r.value) in trips && user == Some(r.value.userId)
  {
    match Lookup(trips, tripId)
    case None => Failure(NotFound)
    case Some(t) => if user != Some(t.userId) then Failure(Forbidden) else Success(t)
  }

  /** `update`: the owner keeps the trip; every form field is written. */
  method Update(db: Database, user: Option<Id>, tripId: Id, form: TripForm) returns (r: Outcome)
    requires db.Valid()
    modifies db`trips
    ensures db.Valid()
    ensures OwnerGate(old(db.trips), user, tripId) != Ok ==>
      r == OwnerGate(old(db.trips), user, tripId) && db.trips == old(db.trips)
    ensures OwnerGate(old(db.trips), user, tripId) == Ok && !(ValidTrip(form) && DatesOrdered(form)) ==>
      r == Fail(ValidationFailed) && db.trips == old(db.trips)
    ensures OwnerGate(old(db.trips), user, tripId) == Ok && ValidTrip(form) && DatesOrdered(form) ==>
      r == Ok && db.trips == Set(old(db.trips), tripId, TripOf(user.value, form))
  {
    r := OwnerGate(db.trips, user, tripId);
    if r != Ok {
      return;
    }
    if !(ValidTrip(form) && DatesOrdered(form)) {
      return Fail(ValidationFailed);
    }
    var owner := Lookup(db.trips, tripId).value.userId;
    SetKeyed(db.trips, tripId, TripOf(owner, form));
    db.trips := Set(db.trips, tripId, TripOf(owner, form));
  }

  /** An image belongs to a journal entry of the trip. */
  predicate ImageOfTrip(entries: seq<Row<JournalEntry>>, img: JournalImage, tripId: Id)
  {
    Lookup(entries, img.entryId).Some? && Lookup(entries, img.entryId).value.tripId == tripId
  }

  /** A comment hangs off a share link of the trip. */
  predicate CommentOfTrip(links: seq<Row<ShareLink>>, c: ShareComment, tripId: Id)
  {
    Lookup(links, c.linkId).Some? && Lookup(links, c.linkId).value.tripId == tripId
  }

  /** `destroy`: the trip and, by cascade, its items, expenses, checklist, journal (with images) and share links (with comments). */
  method Destroy(db: Database, user: Option<Id>, tripId: Id) returns (r: Outcome)
    requires db.Valid()
    modifies db`trips, db`items, db`expenses, db`checklist, db`entries, db`images, db`links, db`comments
    ensures db.Valid()
    ensures r == OwnerGate(old(db.trips), user, tripId)
    ensures r != Ok ==> unchanged(db)
    ensures r == Ok ==>
      && db.trips == Delete(old(db.trips), tripId)
      && db.items == Where(old(db.items), (i: ItineraryItem) => i.tripId != tripId)
      && db.expenses == Where(old(db.expenses), (e: Expense) => e.tripId != tripId)
      && db.checklist == Where(old(db.checklist), (c: ChecklistItem) => c.tripId != tripId)
      && db.entries == Where(old(db.entries), (e: JournalEntry) => e.tripId != tripId)
      && db.images == Where(old(db.images), (i: JournalImage) => !ImageOfTrip(old(db.entries), i, tripId))
      && db.links == Where(old(db.links), (l: ShareLink) => l.tripId != tripId)
      && db.comments == Where(old(db.comments), (c: ShareComment) => !CommentOfTrip(old(db.links), c, tripId))
  {
    r := OwnerGate(db.trips, user, tripId);
    if r != Ok {
      return;
    }
    DeleteTripRows(db, tripId);
    DeletePlanning(db, tripId);
    DeleteJournal(db, tripId);
    DeleteSharing(db, tripId);
  }

  /** The trip row and its expenses. */
  method DeleteTripRows(db: Database, tripId: Id)
    requires db.Valid()
    modifies db`trips, db`expenses
    ensures db.Valid()
    ensures db.trips == Delete(old(db.trips), tripId)
    ensures db.expenses == Where(old(db.expenses), (e: Expense) => e.tripId != tripId)
  {
    DeleteFresh(db.trips, tripId, db.nextId);
    WhereFresh(db.expenses, (e: Expense) => e.tripId != tripId, db.nextId);
    db.trips := Delete(db.trips, tripId);
    db.expenses := Where(db.expenses, (e: Expense) => e.tripId != tripId);
  }

  /** The trip's itinerary and checklist. */
  method DeletePlanning(db: Database, tripId: Id)
    requires db.Valid()
    modifies db`items, db`checklist
    ensures db.Valid()
    ensures db.items == Where(old(db.items), (i: ItineraryItem) => i.tripId != tripId)
    ensures db.checklist == Where(old(db.checklist), (c: ChecklistItem) => c.tripId != tripId)
  {
    WhereFresh(db.items, (i: ItineraryItem) => i.tripId != tripId, db.nextId);
    WhereFresh(db.checklist, (c: ChecklistItem) => c.tripId != tripId, db.nextId);
    db.items := Where(db.items, (i: ItineraryItem) => i.tripId != tripId);
    db.checklist := Where(db.checklist, (c: ChecklistItem) => c.tripId != tripId);
  }

  /** The trip's journal entries and their images. */
  method DeleteJournal(db: Database, tripId: Id)
    requires db.Valid()
    modifies db`entries, db`images
    ensures db.Valid()
    ensures db.entries == Where(old(db.entries), (e: JournalEntry) => e.tripId != tripId)
    ensures db.images == Where(old(db.images), (i: JournalImage) => !ImageOfTrip(old(db.entries), i, tripId))
  {
    var entries := db.entries;
    WhereFresh(db.entries, (e: JournalEntry) => e.tripId != tripId, db.nextId);
    WhereFresh(db.images, (i: JournalImage) => !ImageOfTrip(entries, i, tripId), db.nextId);
    db.images := Where(db.images, (i: JournalImage) => !ImageOfTrip(entries, i, tripId));
    db.entries := Where(db.entries, (e: JournalEntry) => e.tripId != tripId);
  }

  /** The trip's share links and the comments on them. */
  method DeleteSharing(db: Database, tripId: Id)
    requires db.Valid()
    modifies db`links, db`comments
    ensures db.Valid()
    ensures db.links == Where(old(db.links), (l: ShareLink) => l.tripId != tripId)
    ensures db.comments == Where(old(db.comments), (c: ShareComment) => !CommentOfTrip(old(db.links), c, tripId))
  {
    var links := db.links;
    WhereFresh(db.links, (l: ShareLink) => l.tripId != tripId, db.nextId);
    WhereFresh(db.comments, (c: ShareComment) => !CommentOfTrip(links, c, tripId), db.nextId);
    db.comments := Where(db.comments, (c: ShareComment) => !CommentOfTrip(links, c, tripId));
    db.links := Where(db.links, (l: ShareLink) => l.tripId != tripId);
  }

  // ---------------------------------------------------------------------------
  // Mass assignment and the legacy columns.

  /** The `$fillable` list of the trip model. */
  const TripFillable: set<string> := {"user_id", "title", "destination", "start_date", "end_date", "description", "budget"}

  /** Copy `title` to `name` and `description` to `details` unless those keys are already present. */
  function MirrorLegacy<V>(data: map<string, V>): (r: map<string, V>)
    ensures "title" in data && "name" !in data ==> "name" in r && r["name"] == data["title"]
    ensures "description" in data && "details" !in data ==> "details" in r && r["details"] == data["description"]
    ensures forall k :: k in data ==> k in r && r[k] == data[k]
    ensures forall k :: k in r ==> k in data || k == "name" || k == "details"
  {
    var withName := if "name" !in data && "title" in data then data["name" := data["title"]] else data;
    if "details" !in withName && "description" in withName then withName["details" := withName["description"]] else withName
  }

  /** Mass assignment keeps only the fillable keys. */
  function Fill<V>(data: map<string, V>): (r: map<string, V>)
    ensures forall k :: k in r <==> k in data && k in TripFillable
    ensures forall k :: k in r ==> r[k] == data[k]
  {
    map k | k in data && k in TripFillable :: data[k]
  }

  /**
   * The mirroring is dead code: `name` and `details` are not fillable, so the
   * attributes that reach the row are exactly those of the validated data.
   */
  lemma MirroringIsDropped<V>(data: map<string, V>)
    requires "name" !in data && "details" !in data
    ensures Fill(MirrorLegacy(data)) == Fill(data)
    ensures "name" !in Fill(MirrorLegacy(data)) && "details" !in Fill(MirrorLegacy(data))
  {
    assert "name" !in TripFillable && "details" !in TripFillable;
  }

  // ---------------------------------------------------------------------------
  // What the actions promise.

  /** `update` may reject a form `store` accepts: a trip can be created ending before it starts but not edited into that state. */
  lemma StoreLaxerThanUpdate()
    ensures ValidTrip(TripForm(Some("Trip"), None, Some(10), Some(5), None, None))
    ensures !DatesOrdered(TripForm(Some("Trip"), None, Some(10), Some(5), None, None))
  {
    assert !IsTrimmed("Trip"[0]);
  }

  /** After deleting a trip no row refers to it any more, directly or through an entry or a link. */
  lemma DestroyLeavesNoOrphans(
    items: seq<Row<ItineraryItem>>, expenses: seq<Row<Expense>>, checklist: seq<Row<ChecklistItem>>,
    entries: seq<Row<JournalEntry>>, links: seq<Row<ShareLink>>, tripId: Id)
    ensures forall x :: x in Where(items, (i: ItineraryItem) => i.tripId != tripId) ==> x.val.tripId != tripId
    ensures forall x :: x in Where(expenses, (e: Expense) => e.tripId != tripId) ==> x.val.tripId != tripId
    ensures forall x :: x in Where(checklist, (c: ChecklistItem) => c.tripId != tripId) ==> x.val.tripId != tripId
    ensures forall x :: x in Where(entries, (e: JournalEntry) => e.tripId != tripId) ==> x.val.tripId != tripId
    ensures forall x :: x in Where(links, (l: ShareLink) => l.tripId != tripId) ==> x.val.tripId != tripId
  {
  }

  /** Rows of other trips survive the cascade unchanged. */
  lemma DestroyKeepsOtherTrips(items: seq<Row<ItineraryItem>>, tripId: Id, x: Row<ItineraryItem>)
    requires x in items && x.val.tripId != tripId
    ensures x in Where(items, (i: ItineraryItem) => i.tripId != tripId)
  {
  }

  /** `update` changes only the one row, keeps its owner, and stores the form's fields. */
  lemma UpdateTouchesOneRow(trips: seq<Row<Trip>>, tripId: Id, owner: Id, form: TripForm)
    requires Keyed(trips) && form.title.Some?
    ensures |Set(trips, tripId, TripOf(owner, form))| == |trips|
    ensures forall k :: 0 <= k < |trips| ==>
      var (a, b) := (trips[k], Set(trips, tripId, TripOf(owner, form))[k]);
      && b.id == a.id
      && (a.id != tripId ==> b == a)
      && (a.id == tripId ==> b.val.userId == owner && Some(b.val.title) == form.title && b.val.budget == form.budget)
  {
  }
}
