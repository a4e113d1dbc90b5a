/**
 * The relational store the controllers read and write: one record type per
 * table, and the database object whose fields are the tables.
 *
 * Money (`budget`, `amount`, `decimal(10,2)`) is in integer cents, dates are
 * day numbers, timestamps are integers, times of day are the `HH:MM:SS`
 * strings the `time` column returns.
 */
module Schema {
  import opened Common
  import opened Table

  /** `trips`; the legacy `name`/`details` columns are never written (see TripController). */
  datatype Trip = Trip(
    userId: Id,
    title: string,
    destination: Option<string>,
    startDate: Option<int>,
    endDate: Option<int>,
    description: Option<string>,
    budget: Option<int>)

  datatype ItineraryItem = ItineraryItem(
    tripId: Id,
    date: Option<int>,
    time: Option<string>,
    title: string,
    location: Option<string>,
    notes: Option<string>,
    isDone: bool)

  datatype Expense = Expense(
    tripId: Id,
    category: Option<string>,
    amount: int,
    spentOn: Option<int>,
    notes: Option<string>)

  /** `enum('packing', 'task')`. */
  datatype ChecklistKind = Packing | Task

  datatype ChecklistItem = ChecklistItem(
    tripId: Id,
    kind: ChecklistKind,
    title: string,
    isDone: bool,
    dueDate: Option<int>)

  datatype JournalEntry = JournalEntry(
    tripId: Id,
    userId: Id,
    entryDate: Option<int>,
    title: Option<string>,
    body: string,
    createdAt: int)

  datatype JournalImage = JournalImage(
    entryId: Id,
    path: string,
    position: int,
    originalName: string)

  datatype ShareLink = ShareLink(
    tripId: Id,
    createdBy: Id,
    token: string,
    expiresAt: Option<int>,
    revokedAt: Option<int>)

  /** `user_id` is NULL for a comment posted without a session. */
  datatype ShareComment = ShareComment(
    linkId: Id,
    userId: Option<Id>,
    name: string,
    email: Option<string>,
    body: string,
    createdAt: int)

  datatype Destination = Destination(
    name: string,
    country: string,
    city: string,
    kind: string)

  datatype Review = Review(
    userId: Id,
    destinationId: Id,
    comment: string,
    rating: int)

  /** A row of `favorites`: (user, destination). */
  datatype Favorite = Favorite(userId: Id, destinationId: Id)

  /** The signed-in user as the shared page sees it. */
  datatype User = User(id: Id, name: string, email: string)

  class Database {
    var trips: seq<Row<Trip>>
    var items: seq<Row<ItineraryItem>>
    var expenses: seq<Row<Expense>>
    var checklist: seq<Row<ChecklistItem>>
    var entries: seq<Row<JournalEntry>>
    var images: seq<Row<JournalImage>>
    var links: seq<Row<ShareLink>>
    var comments: seq<Row<ShareComment>>
    var destinations: seq<Row<Destination>>
    var reviews: seq<Row<Review>>
    var favorites: set<Favorite>
    /** The next key the database hands out; every key so far is below it. */
    var nextId: Id

    ghost predicate Valid()
      reads this
    {
      && Fresh(trips, nextId)
      && Fresh(items, nextId)
      && Fresh(expenses, nextId)
      && Fresh(checklist, nextId)
      && Fresh(entries, nextId)
      && Fresh(images, nextId)
      && Fresh(links, nextId)
      && Fresh(comments, nextId)
      && Fresh(destinations, nextId)
      && Fresh(reviews, nextId)
    }

    constructor ()
      ensures Valid()
      ensures trips == [] && items == [] && expenses == [] && checklist == []
      ensures entries == [] && images == [] && links == [] && comments == []
      ensures destinations == [] && reviews == [] && favorites == {}
    {
      trips, items, expenses, checklist := [], [], [], [];
      entries, images, links, comments := [], [], [], [];
      destinations, reviews, favorites := [], [], {};
      nextId := 1;
    }
  }

  /**
   * The ownership check made through a child row's `trip` relation. A child
   * whose trip row is gone yields NULL there, and handing NULL on (to a
   * method typed `Trip`, or reading `user_id` off it) fails with a server
   * error.
   */
  function ParentGate(trips: seq<Row<Trip>>, tripId: Id, user: Option<Id>): (r: Outcome)
    ensures r == Ok <==> Has(trips, tripId) && user == Some(Lookup(trips, tripId).value.userId)
    ensures r == Fail(ServerError) <==> !Has(trips, tripId)
    ensures r == Ok || r == Fail(Forbidden) || r == Fail(ServerError)
  {
    match Lookup(trips, tripId)
    case None => Fail(ServerError)
    case Some(t) => if user == Some(t.userId) then Ok else Fail(Forbidden)
  }

  /** The trip-ownership gate shared by every trip-scoped controller: 404, then 403. */
  function OwnerGate(trips: seq<Row<Trip>>, user: Option<Id>, tripId: Id): (r: Outcome)
    ensures r == Fail(NotFound) <==> !Has(trips, tripId)
    ensures r == Ok ==> exists t :: Row(tripId, t) in trips && user == Some(t.userId)
    ensures Keyed(trips) ==> (r == Ok <==> exists t :: Row(tripId, t) in trips && user == Some(t.userId))
    ensures r == Ok || r == Fail(NotFound) || r == Fail(Forbidden)
  {
    match Lookup(trips, tripId)
    case None => Fail(NotFound)
    case Some(t) => if user == Some(t.userId) then Ok else Fail(Forbidden)
  }
}
