/**
 * A trip's expenses. Adding one requires the route trip to be the user's;
 * changing or removing one checks the owner of the trip the expense belongs
 * to. Amounts are in cents and never negative.
 */
module ExpenseController {
  import opened Common
  import opened Table
  import opened Schema
  import opened Relations

  /** The expense form; `None` is a missing or empty field. Amount in cents. */
  datatype ExpenseForm = ExpenseForm(category: Option<string>, amount: Option<int>, spentOn: Option<int>, notes: Option<string>)

  /** `category: nullable|max:255`, `amount: required|numeric|min:0`. */
  predicate ValidExpense(f: ExpenseForm)
  {
    OptionalAtMost(f.category, 255) && f.amount.Some? && f.amount.value >= 0
  }

  function ExpenseOf(tripId: Id, f: ExpenseForm): Expense
    requires f.amount.Some?
  {
    Expense(tripId, f.category, f.amount.value, f.spentOn, f.notes)
  }

  /**
   * `optional($expense->trip)->user_id === Auth::id()`: the owner of the
   * expense's trip must be the user. With the trip row gone the left side is
   * NULL, which matches only a request without a session.
   */
  function UpdateGate(trips: seq<Row<Trip>>, tripId: Id, user: Option<Id>): (r: Outcome)
    ensures r == Ok || r == Fail(Forbidden)
    ensures Has(trips, tripId) ==> (r == Ok <==> user == Some(Lookup(trips, tripId).value.userId))
    ensures !Has(trips, tripId) ==> (r == Ok <==> user.None?)
  {
    var owner := match Lookup(trips, tripId) case None => None case Some(t) => Some(t.userId);
    if owner == user then Ok else Fail(Forbidden)
  }

  /** `store($trip)`. */
  method Store(db: Database, user: Option<Id>, tripId: Id, form: ExpenseForm) returns (r: Outcome)
    requires db.Valid()
    modifies db`expenses, db`nextId
    ensures db.Valid()
    ensures OwnerGate(db.trips, user, tripId) != Ok ==> r == OwnerGate(db.trips, user, tripId) && unchanged(db)
    ensures OwnerGate(db.trips, user, tripId) == Ok && !ValidExpense(form) ==> r == Fail(ValidationFailed) && unchanged(db)
    ensures OwnerGate(db.trips, user, tripId) == Ok && ValidExpense(form) ==>
      r == Ok && db.expenses == old(db.expenses) + [Row(old(db.nextId), ExpenseOf(tripId, form))]
      && db.nextId == old(db.nextId) + 1
  {
    r := OwnerGate(db.trips, user, tripId);
    if r != Ok {
      return;
    }
    if !ValidExpense(form) {
      return Fail(ValidationFailed);
    }
    BelowExtend(db.expenses, db.nextId, ExpenseOf(tripId, form));
    db.expenses := db.expenses + [Row(db.nextId, ExpenseOf(tripId, form))];
    db.nextId := db.nextId + 1;
  }

  /** `update($expense)`: every form field is written; the expense stays on its trip. */
  method Update(db: Database, user: Option<Id>, expenseId: Id, form: ExpenseForm) returns (r: Outcome)
    requires db.Valid()
    modifies db`expenses
    ensures db.Valid()
    ensures Lookup(old(db.expenses), expenseId).None? ==> r == Fail(NotFound) && db.expenses == old(db.expenses)
    ensures Lookup(old(db.expenses), expenseId).Some? ==>
      var e := Lookup(old(db.expenses), expenseId).value;
      && (UpdateGate(db.trips, e.tripId, user) != Ok ==> r == Fail(Forbidden) && db.expenses == old(db.expenses))
      && (UpdateGate(db.trips, e.tripId, user) == Ok && !ValidExpense(form) ==>
            r == Fail(ValidationFailed) && db.expenses == old(db.expenses))
      && (UpdateGate(db.trips, e.tripId, user) == Ok && ValidExpense(form) ==>
            r == Ok && db.expenses == Set(old(db.expenses), expenseId, ExpenseOf(e.tripId, form)))
  {
    var found := Lookup(db.expenses, expenseId);
    if found.None? {
      return Fail(NotFound);
    }
    var e := found.value;
    r := UpdateGate(db.trips, e.tripId, user);
    if r != Ok {
      return;
    }
    if !ValidExpense(form) {
      return Fail(ValidationFailed);
    }
    SetKeyed(db.expenses, expenseId, ExpenseOf(e.tripId, form));
    db.expenses := Set(db.expenses, expenseId, ExpenseOf(e.tripId, form));
  }

  /** `destroy($expense)`: the owner of the expense's trip removes that one row. */
  method Destroy(db: Database, user: Option<Id>, expenseId: Id) returns (r: Outcome)
    requires db.Valid()
    modifies db`expenses
    ensures db.Valid()
    ensures Lookup(old(db.expenses), expenseId).None? ==> r == Fail(NotFound) && db.expenses == old(db.expenses)
    ensures Lookup(old(db.expenses), expenseId).Some? ==>
      r == ParentGate(db.trips, Lookup(old(db.expenses), expenseId).value.tripId, user)
    ensures r == Ok ==> db.expenses == Delete(old(db.expenses), expenseId)
    ensures r != Ok ==> db.expenses == old(db.expenses)
  {
    var found := Lookup(db.expenses, expenseId);
    if found.None? {
      return Fail(NotFound);
    }
    r := ParentGate(db.trips, found.value.tripId, user);
    if r == Ok {
      DeleteFresh(db.expenses, expenseId, db.nextId);
      db.expenses := Delete(db.expenses, expenseId);
    }
  }

  // ---------------------------------------------------------------------------
  // What the actions promise.

  /** Every stored or updated amount is at least 0, so the table's amounts stay non-negative. */
  lemma AmountsStayNonNegative(expenses: seq<Row<Expense>>, id: Id, tripId: Id, form: ExpenseForm)
    requires forall k :: 0 <= k < |expenses| ==> expenses[k].val.amount >= 0
    requires ValidExpense(form)
    ensures forall k :: 0 <= k < |expenses| + 1 ==> (expenses + [Row(id, ExpenseOf(tripId, form))])[k].val.amount >= 0
    ensures forall k :: 0 <= k < |expenses| ==> Set(expenses, id, ExpenseOf(tripId, form))[k].val.amount >= 0
  {
  }

  /** A stored expense counts toward its trip's total spend, and only that trip's. */
  lemma StoreRaisesTripTotal(expenses: seq<Row<Expense>>, id: Id, tripId: Id, other: Id, form: ExpenseForm)
    requires ValidExpense(form) && other != tripId
    ensures TotalSpent(expenses + [Row(id, ExpenseOf(tripId, form))], tripId) == TotalSpent(expenses, tripId) + form.amount.value
    ensures TotalSpent(expenses + [Row(id, ExpenseOf(tripId, form))], other) == TotalSpent(expenses, other)
  {
    TotalSpentAfterInsert(expenses, Row(id, ExpenseOf(tripId, form)), tripId);
    TotalSpentAfterInsert(expenses, Row(id, ExpenseOf(tripId, form)), other);
  }

  /** An expense whose trip is gone can be changed by a request without a session, but by no signed-in user. */
  lemma OrphanUpdateGate(trips: seq<Row<Trip>>, tripId: Id, user: Id)
    requires !Has(trips, tripId)
    ensures UpdateGate(trips, tripId, None) == Ok
    ensures UpdateGate(trips, tripId, Some(user)) == Fail(Forbidden)
  {
  }

  /** Removing an expense deletes exactly that row. */
  lemma DestroyRemovesOne(expenses: seq<Row<Expense>>, id: Id)
    requires Keyed(expenses) && Has(expenses, id)
    ensures |Delete(expenses, id)| == |expenses| - 1
    ensures !Has(Delete(expenses, id), id)
    ensures forall x :: x in expenses && x.id != id ==> x in Delete(expenses, id)
  {
    DeleteRemovesOne(expenses, id);
  }
}
