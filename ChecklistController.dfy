/**
 * A trip's packing list and tasks. Adding an item requires the route trip to
 * be the user's; toggling, editing and removing check the owner of the trip
 * the item belongs to.
 */
module ChecklistController {
  import opened Common
  import opened Table
  import opened Schema

  /** The item form; `None` is a missing or empty field. */
  datatype ChecklistForm = ChecklistForm(kind: Option<string>, title: Option<string>, dueDate: Option<int>)

  /** `type: required|in:packing,task`: the enum value the submitted word names, if any. */
  function KindOf(s: Option<string>): (k: Option<ChecklistKind>)
    ensures k == Some(Packing) <==> s == Some("packing")
    ensures k == Some(Task) <==> s == Some("task")
    ensures k.None? <==> s != Some("packing") && s != Some("task")
  {
    if s == Some("packing") then Some(Packing)
    else if s == Some("task") then Some(Task)
    else None
  }

  /** `title: required|string|max:255`. */
  predicate ValidTitle(title: Option<string>)
  {
    FilledAtMost(title, 255)
  }

  /** `toggle`'s write: the item keyed `id` with `is_done` negated. */
  function Toggled(t: seq<Row<ChecklistItem>>, id: Id): seq<Row<ChecklistItem>>
  {
    match Lookup(t, id)
    case None => t
    case Some(c) => Set(t, id, c.(isDone := !c.isDone))
  }

  /** `update`'s write: the item keyed `id` with a new title and due date. */
  function Edited(t: seq<Row<ChecklistItem>>, id: Id, title: string, dueDate: Option<int>): seq<Row<ChecklistItem>>
  {
    match Lookup(t, id)
    case None => t
    case Some(c) => Set(t, id, c.(title := title, dueDate := dueDate))
  }

  /**
   * `store($trip)`: the item lands on the route trip; `is_done` is not
   * submitted, so it starts at the column default `false`.
   */
  method Store(db: Database, user: Option<Id>, tripId: Id, form: ChecklistForm) returns (r: Outcome)
    requires db.Valid()
    modifies db`checklist, db`nextId
    ensures db.Valid()
    ensures OwnerGate(db.trips, user, tripId) != Ok ==> r == OwnerGate(db.trips, user, tripId) && unchanged(db)
    ensures OwnerGate(db.trips, user, tripId) == Ok && (KindOf(form.kind).None? || !ValidTitle(form.title)) ==>
      r == Fail(ValidationFailed) && unchanged(db)
    ensures OwnerGate(db.trips, user, tripId) == Ok && KindOf(form.kind).Some? && ValidTitle(form.title) ==>
      r == Ok && db.nextId == old(db.nextId) + 1
      && db.checklist == old(db.checklist) +
           [Row(old(db.nextId), ChecklistItem(tripId, KindOf(form.kind).value, form.title.value, false, form.dueDate))]
  {
    r := OwnerGate(db.trips, user, tripId);
    if r != Ok {
      return;
    }
    var kind := KindOf(form.kind);
    if kind.None? || !ValidTitle(form.title) {
      return Fail(ValidationFailed);
    }
    var c := ChecklistItem(tripId, kind.value, form.title.value, false, form.dueDate);
    BelowExtend(db.checklist, db.nextId, c);
    db.checklist := db.checklist + [Row(db.nextId, c)];
    db.nextId := db.nextId + 1;
  }

  /** `toggle($item)`: the owner of the item's trip flips its done flag. */
  method Toggle(db: Database, user: Option<Id>, id: Id) returns (r: Outcome)
    requires db.Valid()
    modifies db`checklist
    ensures db.Valid()
    ensures Lookup(old(db.checklist), id).None? ==> r == Fail(NotFound)
    ensures Lookup(old(db.checklist), id).Some? ==> r == ParentGate(db.trips, Lookup(old(db.checklist), id).value.tripId, user)
    ensures r == Ok ==> db.checklist == Toggled(old(db.checklist), id)
    ensures r != Ok ==> db.checklist == old(db.checklist)
  {
    var found := Lookup(db.checklist, id);
    if found.None? {
      return Fail(NotFound);
    }
    r := ParentGate(db.trips, found.value.tripId, user);
    if r == Ok {
      var c := found.value;
      SetKeyed(db.checklist, id, c.(isDone := !c.isDone));
      db.checklist := Toggled(db.checklist, id);
    }
  }

  /** `update($checklistItem)`: only the title and the due date are written. */
  method Update(db: Database, user: Option<Id>, id: Id, title: Option<string>, dueDate: Option<int>) returns (r: Outcome)
    requires db.Valid()
    modifies db`checklist
    ensures db.Valid()
    ensures Lookup(old(db.checklist), id).None? ==> r == Fail(NotFound)
    ensures Lookup(old(db.checklist), id).Some? && ParentGate(db.trips, Lookup(old(db.checklist), id).value.tripId, user) != Ok ==>
      r == ParentGate(db.trips, Lookup(old(db.checklist), id).value.tripId, user)
    ensures Lookup(old(db.checklist), id).Some? && ParentGate(db.trips, Lookup(old(db.checklist), id).value.tripId, user) == Ok ==>
      r == (if ValidTitle(title) then Ok else Fail(ValidationFailed))
    ensures r == Ok ==> db.checklist == Edited(old(db.checklist), id, title.value, dueDate)
    ensures r != Ok ==> db.checklist == old(db.checklist)
  {
    var found := Lookup(db.checklist, id);
    if found.None? {
      return Fail(NotFound);
    }
    r := ParentGate(db.trips, found.value.tripId, user);
    if r != Ok {
      return;
    }
    if !ValidTitle(title) {
      return Fail(ValidationFailed);
    }
    var c := found.value;
    SetKeyed(db.checklist, id, c.(title := title.value, dueDate := dueDate));
    db.checklist := Edited(db.checklist, id, title.value, dueDate);
  }

  /** `destroy($item)`: the owner of the item's trip removes that one row. */
  method Destroy(db: Database, user: Option<Id>, id: Id) returns (r: Outcome)
    requires db.Valid()
    modifies db`checklist
    ensures db.Valid()
    ensures Lookup(old(db.checklist), id).None? ==> r == Fail(NotFound)
    ensures Lookup(old(db.checklist), id).Some? ==> r == ParentGate(db.trips, Lookup(old(db.checklist), id).value.tripId, user)
    ensures r == Ok ==> db.checklist == Delete(old(db.checklist), id)
    ensures r != Ok ==> db.checklist == old(db.checklist)
  {
    var found := Lookup(db.checklist, id);
    if found.None? {
      return Fail(NotFound);
    }
    r := ParentGate(db.trips, found.value.tripId, user);
    if r == Ok {
      DeleteFresh(db.checklist, id, db.nextId);
      db.checklist := Delete(db.checklist, id);
    }
  }

  // ---------------------------------------------------------------------------
  // What the actions promise.

  /** Toggling an item twice restores the checklist. */
  lemma ToggleTwiceRestores(t: seq<Row<ChecklistItem>>, id: Id)
    requires Keyed(t)
    ensures Toggled(Toggled(t, id), id) == t
  {
    match Lookup(t, id)
    case None =>
    case Some(c) =>
      var c' := c.(isDone := !c.isDone);
      SetLookup(t, id, c');
      SetSet(t, id, c', c);
      SetSame(t, id, c);
  }

  /**
   * Toggling flips exactly the one item's done flag: its trip, type, title and
   * due date stay, and every other item is untouched.
   */
  lemma ToggleFlipsOnlyThatFlag(t: seq<Row<ChecklistItem>>, id: Id)
    requires Keyed(t)
    ensures |Toggled(t, id)| == |t|
    ensures forall i :: 0 <= i < |t| ==>
      var (a, b) := (t[i], Toggled(t, id)[i]);
      && b.id == a.id
      && (a.id == id ==> b.val == a.val.(isDone := !a.val.isDone))
      && (a.id != id ==> b == a)
  {
  }

  /** Editing rewrites the title and due date of the one item; its type and done flag stay, and other items are untouched. */
  lemma EditKeepsKindAndDone(t: seq<Row<ChecklistItem>>, id: Id, title: string, dueDate: Option<int>)
    requires Keyed(t)
    ensures |Edited(t, id, title, dueDate)| == |t|
    ensures forall i :: 0 <= i < |t| ==>
      var (a, b) := (t[i], Edited(t, id, title, dueDate)[i]);
      && b.id == a.id
      && (a.id == id ==> b.val == ChecklistItem(a.val.tripId, a.val.kind, title, a.val.isDone, dueDate))
      && (a.id != id ==> b == a)
  {
  }
}
