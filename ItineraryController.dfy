/**
 * A trip's day-by-day plan. Adding, editing and removing an item check trip
 * ownership; ticking an item off checks nothing beyond its existence. The
 * model's fillable list leaves out `time`, so the submitted time is validated
 * and then dropped by both `create` and `update`.
 */
module ItineraryController {
  import opened Common
  import opened Table
  import opened Schema

  /** The item form; `None` is a missing or empty field. */
  datatype ItineraryForm = ItineraryForm(
    date: Option<int>,
    time: Option<string>,
    title: Option<string>,
    location: Option<string>,
    notes: Option<string>)

  /** `title: required|string|max:255`, `location: nullable|string|max:255`. */
  predicate ValidFields(f: ItineraryForm)
  {
    FilledAtMost(f.title, 255) && OptionalAtMost(f.location, 255)
  }

  /** `store` additionally requires the date. */
  predicate ValidNew(f: ItineraryForm)
  {
    f.date.Some? && ValidFields(f)
  }

  /** `toggle`'s write: the item keyed `id` with `is_done` negated. */
  function Toggled(t: seq<Row<ItineraryItem>>, id: Id): seq<Row<ItineraryItem>>
  {
    match Lookup(t, id)
    case None => t
    case Some(c) => Set(t, id, c.(isDone := !c.isDone))
  }

  /** `update`'s write: the fillable fields from the form; trip, time and done flag stay. */
  function Edited(t: seq<Row<ItineraryItem>>, id: Id, f: ItineraryForm): seq<Row<ItineraryItem>>
    requires f.title.Some?
  {
    match Lookup(t, id)
    case None => t
    case Some(c) => Set(t, id, c.(date := f.date, title := f.title.value, location := f.location, notes := f.notes))
  }

  /** `store($trip)`: the item lands on the route trip with no time and not done. */
  method Store(db: Database, user: Option<Id>, tripId: Id, form: ItineraryForm) returns (r: Outcome)
    requires db.Valid()
    modifies db`items, db`nextId
    ensures db.Valid()
    ensures OwnerGate(db.trips, user, tripId) != Ok ==> r == OwnerGate(db.trips, user, tripId) && unchanged(db)
    ensures OwnerGate(db.trips, user, tripId) == Ok && !ValidNew(form) ==> r == Fail(ValidationFailed) && unchanged(db)
    ensures OwnerGate(db.trips, user, tripId) == Ok && ValidNew(form) ==>
      r == Ok && db.nextId == old(db.nextId) + 1
      && db.items == old(db.items) +
           [Row(old(db.nextId), ItineraryItem(tripId, form.date, None, form.title.value, form.location, form.notes, false))]
  {
    r := OwnerGate(db.trips, user, tripId);
    if r != Ok {
      return;
    }
    if !ValidNew(form) {
      return Fail(ValidationFailed);
    }
    var item := ItineraryItem(tripId, form.date, None, form.title.value, form.location, form.notes, false);
    BelowExtend(db.items, db.nextId, item);
    db.items := db.items + [Row(db.nextId, item)];
    db.nextId := db.nextId + 1;
  }

  /** `toggle($item)`: anyone may flip any existing item's done flag. */
  method Toggle(db: Database, id: Id) returns (r: Outcome)
    requires db.Valid()
    modifies db`items
    ensures db.Valid()
    ensures r == (if Has(old(db.items), id) then Ok else Fail(NotFound))
    ensures db.items == Toggled(old(db.items), id)
  {
    var found := Lookup(db.items, id);
    if found.None? {
      return Fail(NotFound);
    }
    var c := found.value;
    SetKeyed(db.items, id, c.(isDone := !c.isDone));
    db.items := Toggled(db.items, id);
    r := Ok;
  }

  /** `update($itineraryItem)`: the owner of the item's trip rewrites its fillable fields. */
  method Update(db: Database, user: Option<Id>, id: Id, form: ItineraryForm) returns (r: Outcome)
    requires db.Valid()
    modifies db`items
    ensures db.Valid()
    ensures Lookup(old(db.items), id).None? ==> r == Fail(NotFound)
    ensures Lookup(old(db.items), id).Some? && ParentGate(db.trips, Lookup(old(db.items), id).value.tripId, user) != Ok ==>
      r == ParentGate(db.trips, Lookup(old(db.items), id).value.tripId, user)
    ensures Lookup(old(db.items), id).Some? && ParentGate(db.trips, Lookup(old(db.items), id).value.tripId, user) == Ok ==>
      r == (if ValidFields(form) then Ok else Fail(ValidationFailed))
    ensures r == Ok ==> db.items == Edited(old(db.items), id, form)
    ensures r != Ok ==> db.items == old(db.items)
  {
    var found := Lookup(db.items, id);
    if found.None? {
      return Fail(NotFound);
    }
    r := ParentGate(db.trips, found.value.tripId, user);
    if r != Ok {
      return;
    }
    if !ValidFields(form) {
      return Fail(ValidationFailed);
    }
    var c := found.value;
    SetKeyed(db.items, id, c.(date := form.date, title := form.title.value, location := form.location, notes := form.notes));
    db.items := Edited(db.items, id, form);
  }

  /** `destroy($item)`: the owner of the item's trip removes that one row. */
  method Destroy(db: Database, user: Option<Id>, id: Id) returns (r: Outcome)
    requires db.Valid()
    modifies db`items
    ensures db.Valid()
    ensures Lookup(old(db.items), id).None? ==> r == Fail(NotFound)
    ensures Lookup(old(db.items), id).Some? ==> r == ParentGate(db.trips, Lookup(old(db.items), id).value.tripId, user)
    ensures r == Ok ==> db.items == Delete(old(db.items), id)
    ensures r != Ok ==> db.items == old(db.items)
  {
    var found := Lookup(db.items, id);
    if found.None? {
      return Fail(NotFound);
    }
    r := ParentGate(db.trips, found.value.tripId, user);
    if r == Ok {
      DeleteFresh(db.items, id, db.nextId);
      db.items := Delete(db.items, id);
    }
  }

  // ---------------------------------------------------------------------------
  // What the actions promise.

  /** Toggling an item twice restores the plan. */
  lemma ToggleTwiceRestores(t: seq<Row<ItineraryItem>>, id: Id)
    requires Keyed(t)
    ensures Toggled(Toggled(t, id), id) == t
  {
    match Lookup(t, id)
    case None =>
    case Some(c) =>
      var c' := c.(isDone := !c.isDone);
      SetLookup(t, id, c');
      SetSet(t, id, c', c);
      SetSame(t, id, c);
  }

  /** Toggling an existing item flips its done flag and keeps every other field. */
  lemma ToggleFlipsFlag(t: seq<Row<ItineraryItem>>, id: Id)
    requires Keyed(t) && Has(t, id)
    ensures Lookup(Toggled(t, id), id) == Some(Lookup(t, id).value.(isDone := !Lookup(t, id).value.isDone))
    ensures Lookup(Toggled(t, id), id).value.isDone != Lookup(t, id).value.isDone
  {
    var c := Lookup(t, id).value;
    SetLookup(t, id, c.(isDone := !c.isDone));
  }

  /** Editing never writes the time: whatever was submitted, the stored time is the old one. */
  lemma EditKeepsTime(t: seq<Row<ItineraryItem>>, id: Id, f: ItineraryForm)
    requires Keyed(t) && f.title.Some?
    ensures |Edited(t, id, f)| == |t|
    ensures forall i :: 0 <= i < |t| ==>
      var (a, b) := (t[i], Edited(t, id, f)[i]);
      && b.id == a.id
      && (a.id == id ==> b.val == ItineraryItem(a.val.tripId, f.date, a.val.time, f.title.value, f.location, f.notes, a.val.isDone))
      && (a.id != id ==> b == a)
  {
  }
}
