/**
 * The dashboard's statistics for the signed-in user: trip counts, the next
 * trip to start, the share of the total budget spent, the trips still to
 * start this month, and today's itinerary in time order. Nothing is written.
 * Dates are day numbers; `today`, `monthStart` and `monthEnd` are the days
 * the clock gives.
 */
module DashboardController {
  import opened Common
  import opened Table
  import opened Schema
  import opened Sorting
  import opened Relations

  datatype UpcomingTrip = UpcomingTrip(title: string, destination: Option<string>, startDate: int, daysUntil: int)

  datatype TodayItem = TodayItem(
    id: Id,
    tripTitle: string,
    destination: Option<string>,
    date: Option<int>,
    time: Option<string>,
    title: string,
    location: Option<string>,
    notes: Option<string>)

  datatype Stats = Stats(
    activeTrips: nat,
    totalTrips: nat,
    upcomingTrip: Option<UpcomingTrip>,
    usedBudgetPercent: int,
    favoritesCount: int,
    upcomingThisMonthCount: nat,
    todayItineraryItems: seq<TodayItem>)

  /** `Trip::where('user_id', $userId)`: a guest owns nothing. */
  predicate OwnedBy(t: Trip, user: Option<Id>)
  {
    user == Some(t.userId)
  }

  /** `whereDate('start_date', '>=', $today)`: a trip with no start date never qualifies. */
  predicate StartsOnOrAfter(t: Trip, today: int)
  {
    t.startDate.Some? && t.startDate.value >= today
  }

  /** `->count()` of the user's trips. */
  function TotalTrips(trips: seq<Row<Trip>>, user: Option<Id>): nat
  {
    Count(trips, (t: Trip) => OwnedBy(t, user))
  }

  /**
   * `orderBy('start_date')->first()` over the user's trips starting today or
   * later: one with the smallest start date (the first in table order among
   * equals), or none.
   */
  function Upcoming(trips: seq<Row<Trip>>, user: Option<Id>, today: int): (r: Option<Row<Trip>>)
    ensures r.Some? ==> r.value in trips && OwnedBy(r.value.val, user) && StartsOnOrAfter(r.value.val, today)
    ensures r.Some? ==> forall x :: x in trips && OwnedBy(x.val, user) && StartsOnOrAfter(x.val, today) ==>
      r.value.val.startDate.value <= x.val.startDate.value
    ensures r.None? <==> forall x :: x in trips && OwnedBy(x.val, user) ==> !StartsOnOrAfter(x.val, today)
  {
    if trips == [] then None
    else
      assert forall x :: x in trips <==> x == trips[0] || x in trips[1..];
      var rest := Upcoming(trips[1..], user, today);
      if !(OwnedBy(trips[0].val, user) && StartsOnOrAfter(trips[0].val, today)) then rest
      else if rest.None? || trips[0].val.startDate.value <= rest.value.val.startDate.value then Some(trips[0])
      else rest
  }

  /** `diffInDays` from today, negative values clamped to 0. */
  function DaysUntil(today: int, start: int): (d: int)
    ensures d >= 0
    ensures start >= today ==> today + d == start
    ensures start <= today ==> d == 0
  {
    if start - today < 0 then 0 else start - today
  }

  /** The projection `upcomingTripData` makes of the chosen trip. */
  function UpcomingData(trips: seq<Row<Trip>>, user: Option<Id>, today: int): (r: Option<UpcomingTrip>)
    ensures r.None? <==> Upcoming(trips, user, today).None?
    ensures r.Some? ==> r.value.daysUntil == r.value.startDate - today >= 0
    ensures r.Some? ==>
      var t := Upcoming(trips, user, today).value.val;
      r.value.title == t.title && r.value.destination == t.destination && Some(r.value.startDate) == t.startDate
  {
    match Upcoming(trips, user, today)
    case None => None
    case Some(t) =>
      var start := t.val.startDate.value;
      Some(UpcomingTrip(t.val.title, t.val.destination, start, DaysUntil(today, start)))
  }

  /** `sum('budget')`: a NULL budget adds nothing. */
  function SumBudgets(trips: seq<Row<Trip>>): int
  {
    if trips == [] then 0
    else (match trips[0].val.budget case None => 0 case Some(b) => b) + SumBudgets(trips[1..])
  }

  /** The trip `trip_id` exists and is the user's. */
  predicate TripOwnedBy(trips: seq<Row<Trip>>, tripId: Id, user: Option<Id>)
  {
    Lookup(trips, tripId).Some? && OwnedBy(Lookup(trips, tripId).value, user)
  }

  function TotalBudget(trips: seq<Row<Trip>>, user: Option<Id>): int
  {
    SumBudgets(Where(trips, (t: Trip) => OwnedBy(t, user)))
  }

  /** `Expense::whereIn('trip_id', $tripIds)->sum('amount')`. */
  function TotalSpentBy(trips: seq<Row<Trip>>, expenses: seq<Row<Expense>>, user: Option<Id>): int
  {
    SumAmounts(Where(expenses, (e: Expense) => TripOwnedBy(trips, e.tripId, user)))
  }

  /**
   * PHP's `round` of the exact quotient `n / d`: to the nearest integer,
   * halves away from zero.
   */
  function RoundDiv(n: int, d: int): (r: int)
    requires d > 0
    ensures n >= 0 ==> 2 * d * r - d <= 2 * n < 2 * d * r + d
    ensures n < 0 ==> 2 * d * r - d < 2 * n <= 2 * d * r + d
    ensures n >= 0 ==> r >= 0
    ensures n <= 0 ==> r <= 0
  {
    if n >= 0 then
      var q := (2 * n + d) / (2 * d);
      assert 2 * n + d == 2 * d * q + (2 * n + d) % (2 * d);
      q
    else
      var q := (-2 * n + d) / (2 * d);
      assert -2 * n + d == 2 * d * q + (-2 * n + d) % (2 * d);
      -q
  }

  /** `round(($totalSpent / $totalBudget) * 100)`, or 0 when the budget is not positive. */
  function UsedBudgetPercent(spent: int, budget: int): (p: int)
    ensures budget <= 0 ==> p == 0
    ensures budget > 0 && spent >= 0 ==> 2 * budget * p - budget <= 200 * spent < 2 * budget * p + budget
  {
    if budget > 0 then RoundDiv(100 * spent, budget) else 0
  }

  /** `whereBetween('start_date', [$monthStart, $monthEnd])->whereDate('start_date', '>=', $today)->count()`. */
  function UpcomingThisMonth(trips: seq<Row<Trip>>, user: Option<Id>, today: int, monthStart: int, monthEnd: int): nat
  {
    Count(trips, (t: Trip) => OwnedBy(t, user) && StartsOnOrAfter(t, today)
      && monthStart <= t.startDate.value <= monthEnd)
  }

  predicate ItemToday(trips: seq<Row<Trip>>, i: ItineraryItem, user: Option<Id>, today: int)
  {
    i.date == Some(today) && TripOwnedBy(trips, i.tripId, user)
  }

  predicate TimeLe(x: Row<ItineraryItem>, y: Row<ItineraryItem>)
  {
    OptStrLe(x.val.time, y.val.time)
  }

  /** The items dated today on the user's own trips, by time with NULL first. */
  function TodayRows(trips: seq<Row<Trip>>, items: seq<Row<ItineraryItem>>, user: Option<Id>, today: int)
    : (r: seq<Row<ItineraryItem>>)
    ensures SortedBy(r, TimeLe)
    ensures forall x :: x in r <==> x in items && ItemToday(trips, x.val, user, today)
  {
    OptStrLeIsPreorder();
    var mine := Where(items, (i: ItineraryItem) => ItemToday(trips, i, user, today));
    var sorted := Sort(mine, TimeLe);
    assert forall x :: x in sorted <==> x in mine by {
      forall x ensures x in sorted <==> x in mine {
        SameElements(sorted, mine, x);
      }
    }
    sorted
  }

  /**
   * One row of the page: the item joined with its trip's title and
   * destination. The item's `date` has no cast, so it is a plain string and
   * `optional($item->date)->toDateString()` yields NULL.
   */
  function Project(trips: seq<Row<Trip>>, row: Row<ItineraryItem>): TodayItem
    requires Lookup(trips, row.val.tripId).Some?
  {
    var trip := Lookup(trips, row.val.tripId).value;
    TodayItem(row.id, trip.title, trip.destination, None, row.val.time, row.val.title, row.val.location, row.val.notes)
  }

  /** `todayItineraryItems`: each of today's rows with its trip's title and destination. */
  function TodayItems(trips: seq<Row<Trip>>, items: seq<Row<ItineraryItem>>, user: Option<Id>, today: int)
    : (r: seq<TodayItem>)
    ensures |r| == |TodayRows(trips, items, user, today)|
    ensures forall k :: 0 <= k < |r| ==> r[k].date.None?
    ensures forall j, k :: 0 <= j < k < |r| ==> OptStrLe(r[j].time, r[k].time)
    ensures forall k :: 0 <= k < |r| ==>
      var row := TodayRows(trips, items, user, today)[k];
      && r[k].id == row.id && r[k].title == row.val.title && r[k].time == row.val.time
      && TripOwnedBy(trips, row.val.tripId, user)
      && r[k].tripTitle == Lookup(trips, row.val.tripId).value.title
      && r[k].destination == Lookup(trips, row.val.tripId).value.destination
      && r[k].location == row.val.location && r[k].notes == row.val.notes
  {
    var rows := TodayRows(trips, items, user, today);
    seq(|rows|, k requires 0 <= k < |rows| => assert rows[k] in rows; Project(trips, rows[k]))
  }

  /** `__invoke`: the statistics the dashboard page receives. */
  function Dashboard(
    trips: seq<Row<Trip>>, items: seq<Row<ItineraryItem>>, expenses: seq<Row<Expense>>,
    user: Option<Id>, today: int, monthStart: int, monthEnd: int): (s: Stats)
    ensures s.activeTrips == s.totalTrips == |Where(trips, (t: Trip) => OwnedBy(t, user))|
    ensures s.favoritesCount == 0
    ensures s.upcomingTrip.Some? ==> s.upcomingTrip.value.daysUntil >= 0
    ensures s.upcomingThisMonthCount <= s.totalTrips
    ensures s.upcomingTrip == UpcomingData(trips, user, today)
    ensures s.usedBudgetPercent == UsedBudgetPercent(TotalSpentBy(trips, expenses, user), TotalBudget(trips, user))
    ensures s.upcomingThisMonthCount == UpcomingThisMonth(trips, user, today, monthStart, monthEnd)
    ensures s.todayItineraryItems == TodayItems(trips, items, user, today)
  {
    var total := TotalTrips(trips, user);
    MonthWithinTotal(trips, user, today, monthStart, monthEnd);
    Stats(
      total,
      total,
      UpcomingData(trips, user, today),
      UsedBudgetPercent(TotalSpentBy(trips, expenses, user), TotalBudget(trips, user)),
      0,
      UpcomingThisMonth(trips, user, today, monthStart, monthEnd),
      TodayItems(trips, items, user, today))
  }

  // ---------------------------------------------------------------------------
  // What the statistics promise.

  /** Another user's trip does not move the count; one of the user's own moves it by one. */
  lemma TotalTripsCountsOwnOnly(trips: seq<Row<Trip>>, row: Row<Trip>, user: Option<Id>)
    ensures TotalTrips(trips + [row], user) == TotalTrips(trips, user) + (if OwnedBy(row.val, user) then 1 else 0)
  {
    CountAppend(trips, [row], (t: Trip) => OwnedBy(t, user));
  }

  lemma GuestSeesNothing(trips: seq<Row<Trip>>, items: seq<Row<ItineraryItem>>, expenses: seq<Row<Expense>>,
    today: int, monthStart: int, monthEnd: int)
    ensures Dashboard(trips, items, expenses, None, today, monthStart, monthEnd).totalTrips == 0
    ensures Dashboard(trips, items, expenses, None, today, monthStart, monthEnd).upcomingTrip.None?
    ensures Dashboard(trips, items, expenses, None, today, monthStart, monthEnd).todayItineraryItems == []
  {
    WhereNone(trips, (t: Trip) => OwnedBy(t, None));
    var rows := TodayRows(trips, items, None, today);
    if rows != [] {
      assert rows[0] in rows;
    }
  }

  lemma {:induction false} MonthWithinTotal(trips: seq<Row<Trip>>, user: Option<Id>, today: int, monthStart: int, monthEnd: int)
    ensures UpcomingThisMonth(trips, user, today, monthStart, monthEnd) <= TotalTrips(trips, user)
  {
    if trips != [] {
      MonthWithinTotal(trips[1..], user, today, monthStart, monthEnd);
    }
  }

  /** The percentage is not capped: spending two and a half budgets reads 250. */
  lemma PercentNotCapped()
    ensures UsedBudgetPercent(25000, 10000) == 250
  {
  }

  /** Exactly half a point rounds up: 1/200 of the budget is 0.5%, shown as 1. */
  lemma PercentHalfRoundsUp()
    ensures UsedBudgetPercent(1, 200) == 1
  {
  }

  /** Within the budget the percentage stays in 0..100. */
  lemma PercentWithinBudget(spent: int, budget: int)
    requires 0 <= spent <= budget && budget > 0
    ensures 0 <= UsedBudgetPercent(spent, budget) <= 100
  {
    var p := UsedBudgetPercent(spent, budget);
    assert budget * (2 * p - 201) <= 0 by {
      assert 200 * spent <= 200 * budget;
    }
    ProductSign(budget, 2 * p - 201);
  }

  lemma ProductSign(a: int, b: int)
    requires a > 0 && a * b <= 0
    ensures b <= 0
  {
  }

  /** With the non-negative amounts validation enforces, the percentage is never negative. */
  lemma PercentNonNegative(trips: seq<Row<Trip>>, expenses: seq<Row<Expense>>, user: Option<Id>)
    requires forall k :: 0 <= k < |expenses| ==> expenses[k].val.amount >= 0
    ensures UsedBudgetPercent(TotalSpentBy(trips, expenses, user), TotalBudget(trips, user)) >= 0
  {
    var mine := Where(expenses, (e: Expense) => TripOwnedBy(trips, e.tripId, user));
    forall k | 0 <= k < |mine| ensures mine[k].val.amount >= 0 {
      assert mine[k] in expenses;
    }
    SumNonNegative(mine);
  }
}
