/**
 * The public, read-only trip page reached through a share token. Anyone
 * holding an active token sees the trip with its itinerary, expenses,
 * checklist, total spend and the link's comments; a signed-in viewer's name
 * and e-mail prefill the comment form.
 */
module SharedTripController {
  import opened Common
  import opened Table
  import opened Schema
  import opened Sorting
  import opened Relations
  import opened ShareLinkModel

  datatype Viewer = Viewer(name: string, email: string)

  datatype SharedView = SharedView(
    trip: Row<Trip>,
    itinerary: seq<Row<ItineraryItem>>,
    expenses: seq<Row<Expense>>,
    checklist: seq<Row<ChecklistItem>>,
    totalSpent: int,
    token: string,
    viewer: Viewer,
    comments: seq<Row<ShareComment>>)

  /** `$user?->name ?? ''` and `$user?->email ?? ''`. */
  function ViewerOf(user: Option<User>): (v: Viewer)
    ensures user.None? ==> v == Viewer("", "")
    ensures user.Some? ==> v.name == user.value.name && v.email == user.value.email
  {
    match user
    case None => Viewer("", "")
    case Some(u) => Viewer(u.name, u.email)
  }

  /** The page for one resolved link: the trip's relations and the link's comments, newest first. */
  function PageFor(
    link: Row<ShareLink>, trip: Trip,
    items: seq<Row<ItineraryItem>>, expenses: seq<Row<Expense>>,
    checklist: seq<Row<ChecklistItem>>, comments: seq<Row<ShareComment>>,
    user: Option<User>): SharedView
  {
    CommentOrder();
    SharedView(
      Row(link.val.tripId, trip),
      ItineraryOf(items, link.val.tripId),
      ExpensesOf(expenses, link.val.tripId),
      ChecklistOf(checklist, link.val.tripId),
      TotalSpent(expenses, link.val.tripId),
      link.val.token,
      ViewerOf(user),
      Sort(CommentsOf(comments, link.id), CommentNewerOrSame))
  }

  /**
   * `show($token)`: 404 unless an active link carries the token and its trip
   * exists; otherwise the page for that link. Nothing is written.
   */
  function Show(
    links: seq<Row<ShareLink>>, trips: seq<Row<Trip>>,
    items: seq<Row<ItineraryItem>>, expenses: seq<Row<Expense>>,
    checklist: seq<Row<ChecklistItem>>, comments: seq<Row<ShareComment>>,
    token: string, user: Option<User>, now: int): (r: Result<SharedView>)
    ensures r.Failure? ==> r.error == NotFound
    ensures r.Failure? <==>
      (forall x :: x in links && x.val.token == token ==> !IsActive(x.val, now))
      || !Has(trips, ActiveByToken(links, token, now).value.val.tripId)
    ensures r.Success? ==> exists l ::
      && l in links && l.val.token == token && IsActive(l.val, now)
      && r.value.trip in trips && r.value.trip.id == l.val.tripId
      && r.value.token == token
      && (forall c :: c in r.value.comments <==> c in comments && c.val.linkId == l.id)
      && (forall x :: x in r.value.expenses <==> x in expenses && x.val.tripId == l.val.tripId)
      && (forall x :: x in r.value.checklist <==> x in checklist && x.val.tripId == l.val.tripId)
      && r.value.totalSpent == TotalSpent(expenses, l.val.tripId)
    ensures r.Success? ==> SortedBy(r.value.comments, CommentNewerOrSame)
    ensures r.Success? ==> SortedBy(r.value.itinerary, ItineraryLe)
    ensures r.Success? ==> forall x :: x in r.value.itinerary <==> x in items && x.val.tripId == r.value.trip.id
    ensures r.Success? ==> r.value.viewer == ViewerOf(user)
  {
    match ActiveByToken(links, token, now)
    case None => Failure(NotFound)
    case Some(link) =>
      match Lookup(trips, link.val.tripId)
      case None => Failure(NotFound)
      case Some(trip) =>
        var page := PageFor(link, trip, items, expenses, checklist, comments, user);
        ItineraryMembers(items, link.val.tripId);
        assert forall c :: c in page.comments <==> c in CommentsOf(comments, link.id) by {
          forall c ensures c in page.comments <==> c in CommentsOf(comments, link.id) {
            SameElements(page.comments, CommentsOf(comments, link.id), c);
          }
        }
        Success(page)
  }

  /** Under the unique-token index, the page shows exactly the comments of the one link holding the token. */
  lemma ShowsThatLinksComments(
    links: seq<Row<ShareLink>>, trips: seq<Row<Trip>>,
    items: seq<Row<ItineraryItem>>, expenses: seq<Row<Expense>>,
    checklist: seq<Row<ChecklistItem>>, comments: seq<Row<ShareComment>>,
    token: string, user: Option<User>, now: int, k: nat)
    requires TokensUnique(links)
    requires k < |links| && links[k].val.token == token
    requires Show(links, trips, items, expenses, checklist, comments, token, user, now).Success?
    ensures IsActive(links[k].val, now)
    ensures forall c ::
      c in Show(links, trips, items, expenses, checklist, comments, token, user, now).value.comments
      <==> c in comments && c.val.linkId == links[k].id
  {
    var r := Show(links, trips, items, expenses, checklist, comments, token, user, now);
    var l :| l in links && l.val.token == token && IsActive(l.val, now)
      && (forall c :: c in r.value.comments <==> c in comments && c.val.linkId == l.id);
    var j :| 0 <= j < |links| && links[j] == l;
    assert j == k;
  }
}
