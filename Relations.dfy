/**
 * The `hasMany` relations of a trip and of a journal entry, with the order
 * the models attach to them: itinerary items by (date, time), images by
 * position, and the `latest()` order (newest `created_at` first).
 * NULL sorts before every value, as in SQLite and MySQL ascending order.
 */
module Relations {
  import opened Common
  import opened Table
  import opened Schema
  import opened Sorting

  predicate OptIntLe(a: Option<int>, b: Option<int>)
  {
    a.None? || (b.Some? && a.value <= b.value)
  }

  predicate OptStrLe(a: Option<string>, b: Option<string>)
  {
    a.None? || (b.Some? && StrLe(a.value, b.value))
  }

  /** `orderBy('date')->orderBy('time')`. */
  predicate ItineraryLe(x: Row<ItineraryItem>, y: Row<ItineraryItem>)
  {
    if x.val.date != y.val.date then OptIntLe(x.val.date, y.val.date)
    else OptStrLe(x.val.time, y.val.time)
  }

  /** `orderBy('position')`. */
  predicate PositionLe(x: Row<JournalImage>, y: Row<JournalImage>)
  {
    x.val.position <= y.val.position
  }

  /** `latest()` on comments. */
  predicate CommentNewerOrSame(x: Row<ShareComment>, y: Row<ShareComment>)
  {
    x.val.createdAt >= y.val.createdAt
  }

  /** `latest()` on journal entries. */
  predicate EntryNewerOrSame(x: Row<JournalEntry>, y: Row<JournalEntry>)
  {
    x.val.createdAt >= y.val.createdAt
  }

  lemma OptStrLeIsPreorder()
    ensures forall a, b :: OptStrLe(a, b) || OptStrLe(b, a)
    ensures forall a, b, c :: OptStrLe(a, b) && OptStrLe(b, c) ==> OptStrLe(a, c)
  {
    forall a: Option<string>, b: Option<string> ensures OptStrLe(a, b) || OptStrLe(b, a) {
      if a.Some? && b.Some? { StrLeTotal(a.value, b.value); }
    }
    forall a: Option<string>, b: Option<string>, c: Option<string> | OptStrLe(a, b) && OptStrLe(b, c)
      ensures OptStrLe(a, c)
    {
      if a.Some? { StrLeTransitive(a.value, b.value, c.value); }
    }
  }

  lemma ItineraryOrder()
    ensures TotalPreorder(ItineraryLe)
  {
    OptStrLeIsPreorder();
  }

  lemma PositionOrder()
    ensures TotalPreorder(PositionLe)
  {
  }

  lemma CommentOrder()
    ensures TotalPreorder(CommentNewerOrSame)
  {
  }

  lemma EntryOrder()
    ensures TotalPreorder(EntryNewerOrSame)
  {
  }

  predicate ItemOfTrip(i: ItineraryItem, tripId: Id) { i.tripId == tripId }
  predicate ExpenseOfTrip(e: Expense, tripId: Id) { e.tripId == tripId }
  predicate ChecklistOfTrip(c: ChecklistItem, tripId: Id) { c.tripId == tripId }
  predicate ImageOfEntry(i: JournalImage, entryId: Id) { i.entryId == entryId }

  /** `$trip->itineraryItems`. */
  function ItineraryOf(items: seq<Row<ItineraryItem>>, tripId: Id): (r: seq<Row<ItineraryItem>>)
    ensures SortedBy(r, ItineraryLe)
    ensures multiset(r) == multiset(Where(items, (i: ItineraryItem) => ItemOfTrip(i, tripId)))
  {
    ItineraryOrder();
    Sort(Where(items, (i: ItineraryItem) => ItemOfTrip(i, tripId)), ItineraryLe)
  }

  /** The trip's itinerary holds exactly the items with its trip_id. */
  lemma ItineraryMembers(items: seq<Row<ItineraryItem>>, tripId: Id)
    ensures forall x :: x in ItineraryOf(items, tripId) <==> x in items && x.val.tripId == tripId
  {
    forall x ensures x in ItineraryOf(items, tripId) <==> x in items && x.val.tripId == tripId {
      SameElements(ItineraryOf(items, tripId), Where(items, (i: ItineraryItem) => ItemOfTrip(i, tripId)), x);
    }
  }

  /** `$trip->expenses`. */
  function ExpensesOf(expenses: seq<Row<Expense>>, tripId: Id): (r: seq<Row<Expense>>)
    ensures forall x :: x in r <==> x in expenses && x.val.tripId == tripId
  {
    Where(expenses, (e: Expense) => ExpenseOfTrip(e, tripId))
  }

  /** `$trip->checklistItems`. */
  function ChecklistOf(checklist: seq<Row<ChecklistItem>>, tripId: Id): (r: seq<Row<ChecklistItem>>)
    ensures forall x :: x in r <==> x in checklist && x.val.tripId == tripId
  {
    Where(checklist, (c: ChecklistItem) => ChecklistOfTrip(c, tripId))
  }

  /** `$entry->images`: the entry's images by position. */
  function ImagesOf(images: seq<Row<JournalImage>>, entryId: Id): (r: seq<Row<JournalImage>>)
    ensures SortedBy(r, PositionLe)
    ensures multiset(r) == multiset(Where(images, (i: JournalImage) => ImageOfEntry(i, entryId)))
  {
    PositionOrder();
    Sort(Where(images, (i: JournalImage) => ImageOfEntry(i, entryId)), PositionLe)
  }

  /** `->sum('amount')`. */
  function SumAmounts(expenses: seq<Row<Expense>>): int
  {
    if expenses == [] then 0 else expenses[0].val.amount + SumAmounts(expenses[1..])
  }

  /** `$trip->expenses->sum('amount')`. */
  function TotalSpent(expenses: seq<Row<Expense>>, tripId: Id): int
  {
    SumAmounts(ExpensesOf(expenses, tripId))
  }

  lemma {:induction false} SumAppend(a: seq<Row<Expense>>, b: seq<Row<Expense>>)
    ensures SumAmounts(a + b) == SumAmounts(a) + SumAmounts(b)
  {
    if a == [] {
      assert a + b == b;
    } else {
      assert (a + b)[1..] == a[1..] + b;
      SumAppend(a[1..], b);
    }
  }

  /** Amounts are validated `min:0`, so sums of them are never negative. */
  lemma {:induction false} SumNonNegative(expenses: seq<Row<Expense>>)
    requires forall k :: 0 <= k < |expenses| ==> expenses[k].val.amount >= 0
    ensures SumAmounts(expenses) >= 0
  {
    if expenses != [] {
      assert forall k :: 0 <= k < |expenses[1..]| ==> expenses[1..][k] == expenses[k + 1];
      SumNonNegative(expenses[1..]);
    }
  }

  /** Adding an expense to a trip raises its total by exactly that amount; other trips keep theirs. */
  lemma TotalSpentAfterInsert(expenses: seq<Row<Expense>>, row: Row<Expense>, tripId: Id)
    ensures TotalSpent(expenses + [row], tripId)
      == TotalSpent(expenses, tripId) + (if row.val.tripId == tripId then row.val.amount else 0)
  {
    var p := (e: Expense) => ExpenseOfTrip(e, tripId);
    WhereAppend(expenses, [row], p);
    SumAppend(Where(expenses, p), Where([row], p));
  }
}
