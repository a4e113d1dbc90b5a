/**
 * Destination reviews. `store` is an upsert keyed on (user, destination):
 * a second submission by the same user for the same destination overwrites
 * the comment and rating instead of adding a row.
 */
module ReviewController {
  import opened Common
  import opened Table
  import opened Schema

  /** The review form; `None` is a missing field. */
  datatype ReviewForm = ReviewForm(comment: Option<string>, rating: Option<int>)

  /** `comment: required|string|max:1000`, `rating: required|integer|min:1|max:5`. */
  predicate ValidReview(f: ReviewForm)
  {
    FilledAtMost(f.comment, 1000) && f.rating.Some? && 1 <= f.rating.value <= 5
  }

  predicate ReviewKey(r: Review, user: Id, destinationId: Id)
  {
    r.userId == user && r.destinationId == destinationId
  }

  /** At most one review per (user, destination). */
  predicate OnePerPair(t: seq<Row<Review>>)
  {
    forall i, j :: 0 <= i < j < |t| ==>
      !ReviewKey(t[j].val, t[i].val.userId, t[i].val.destinationId)
  }

  /** The first row with the key, as `where(...)->first()` finds it. */
  function Find(t: seq<Row<Review>>, user: Id, destinationId: Id): (r: Option<nat>)
    ensures r.None? <==> forall i :: 0 <= i < |t| ==> !ReviewKey(t[i].val, user, destinationId)
    ensures r.Some? ==> r.value < |t| && ReviewKey(t[r.value].val, user, destinationId)
    ensures r.Some? ==> forall i :: 0 <= i < r.value ==> !ReviewKey(t[i].val, user, destinationId)
  {
    if t == [] then None
    else if ReviewKey(t[0].val, user, destinationId) then Some(0)
    else match Find(t[1..], user, destinationId)
      case None => None
      case Some(k) => Some(k + 1)
  }

  /** `updateOrCreate`: overwrite comment and rating of the matching row, or append a new one under `newId`. */
  function Upsert(t: seq<Row<Review>>, newId: Id, user: Id, destinationId: Id, comment: string, rating: int): seq<Row<Review>>
  {
    match Find(t, user, destinationId)
    case Some(k) => t[k := Row(t[k].id, t[k].val.(comment := comment, rating := rating))]
    case None => t + [Row(newId, Review(user, destinationId, comment, rating))]
  }

  /** `store($destinationId)`: 404 for an unknown destination, 422 for an invalid form, else the upsert. */
  method Store(db: Database, user: Id, destinationId: Id, form: ReviewForm) returns (r: Outcome)
    requires db.Valid()
    modifies db`reviews, db`nextId
    ensures db.Valid()
    ensures !Has(db.destinations, destinationId) ==> r == Fail(NotFound) && unchanged(db)
    ensures Has(db.destinations, destinationId) && !ValidReview(form) ==> r == Fail(ValidationFailed) && unchanged(db)
    ensures Has(db.destinations, destinationId) && ValidReview(form) ==>
      && r == Ok
      && db.reviews == Upsert(old(db.reviews), old(db.nextId), user, destinationId, form.comment.value, form.rating.value)
      && db.nextId == old(db.nextId) + (if Find(old(db.reviews), user, destinationId).None? then 1 else 0)
    ensures OnePerPair(old(db.reviews)) ==> OnePerPair(db.reviews)
  {
    if !Has(db.destinations, destinationId) {
      return Fail(NotFound);
    }
    if !ValidReview(form) {
      return Fail(ValidationFailed);
    }
    UpsertFresh(db.reviews, db.nextId, user, destinationId, form.comment.value, form.rating.value);
    if OnePerPair(db.reviews) {
      UpsertKeepsOnePerPair(db.reviews, db.nextId, user, destinationId, form.comment.value, form.rating.value);
    }
    var inserts := Find(db.reviews, user, destinationId).None?;
    db.reviews := Upsert(db.reviews, db.nextId, user, destinationId, form.comment.value, form.rating.value);
    if inserts {
      db.nextId := db.nextId + 1;
    }
    r := Ok;
  }

  // ---------------------------------------------------------------------------
  // What the upsert promises.

  lemma UpsertFresh(t: seq<Row<Review>>, newId: Id, user: Id, destinationId: Id, comment: string, rating: int)
    requires Fresh(t, newId)
    ensures Fresh(Upsert(t, newId, user, destinationId, comment, rating), newId + 1)
    ensures Find(t, user, destinationId).Some? ==> Fresh(Upsert(t, newId, user, destinationId, comment, rating), newId)
  {
    var u := Upsert(t, newId, user, destinationId, comment, rating);
    if Find(t, user, destinationId).None? {
      BelowExtend(t, newId, Review(user, destinationId, comment, rating));
    } else {
      assert forall i :: 0 <= i < |u| ==> u[i].id == t[i].id;
    }
  }

  /** The upsert keeps at most one review per (user, destination). */
  lemma UpsertKeepsOnePerPair(t: seq<Row<Review>>, newId: Id, user: Id, destinationId: Id, comment: string, rating: int)
    requires OnePerPair(t)
    ensures OnePerPair(Upsert(t, newId, user, destinationId, comment, rating))
  {
    var u := Upsert(t, newId, user, destinationId, comment, rating);
    match Find(t, user, destinationId)
    case Some(k) =>
      assert forall i :: 0 <= i < |t| ==> u[i].val.userId == t[i].val.userId && u[i].val.destinationId == t[i].val.destinationId;
    case None =>
      forall i, j | 0 <= i < j < |u|
        ensures !ReviewKey(u[j].val, u[i].val.userId, u[i].val.destinationId)
      {
        if j == |t| {
          assert u[j].val.userId == user && u[j].val.destinationId == destinationId;
          assert u[i] == t[i];
        }
      }
  }

  /**
   * After the upsert exactly one row carries the key, and it holds the
   * submitted comment and rating.
   */
  lemma UpsertStoresTheReview(t: seq<Row<Review>>, newId: Id, user: Id, destinationId: Id, comment: string, rating: int)
    requires OnePerPair(t)
    ensures var u := Upsert(t, newId, user, destinationId, comment, rating);
      exists k ::
        && 0 <= k < |u| && u[k].val == Review(user, destinationId, comment, rating)
        && (forall i :: 0 <= i < |u| && i != k ==> !ReviewKey(u[i].val, user, destinationId))
  {
    var u := Upsert(t, newId, user, destinationId, comment, rating);
    match Find(t, user, destinationId)
    case Some(k) =>
      assert u[k].val == Review(user, destinationId, comment, rating);
      forall i | 0 <= i < |u| && i != k
        ensures !ReviewKey(u[i].val, user, destinationId)
      {
        assert u[i] == t[i];
        if i > k {
          assert !ReviewKey(t[i].val, t[k].val.userId, t[k].val.destinationId);
        }
      }
    case None =>
      assert u[|t|].val == Review(user, destinationId, comment, rating);
  }

  /** Re-submitting keeps the row's key and id; every review of another user or destination is unchanged. */
  lemma UpsertTouchesOnlyThePair(t: seq<Row<Review>>, newId: Id, user: Id, destinationId: Id, comment: string, rating: int)
    ensures var u := Upsert(t, newId, user, destinationId, comment, rating);
      && |t| <= |u| <= |t| + 1
      && (forall i :: 0 <= i < |t| && !ReviewKey(t[i].val, user, destinationId) ==> u[i] == t[i])
      && (forall i :: 0 <= i < |t| ==> u[i].id == t[i].id)
      && (Find(t, user, destinationId).Some? ==> |u| == |t|)
  {
  }
}
