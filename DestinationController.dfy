/**
 * The public destination catalogue: a search page that narrows the list by a
 * free-text term, a type and a country, sorts it by name and shows it ten at
 * a time, and a detail page with the destination's reviews.
 */
module DestinationController {
  import opened Common
  import opened Table
  import opened Schema
  import opened Sorting

  /** The filter parameters of the query string; `None` is an absent parameter. */
  datatype Filters = Filters(search: Option<string>, kind: Option<string>, country: Option<string>)

  /** One page of results as `paginate(10)` reports it. */
  datatype Paged = Paged(items: seq<Row<Destination>>, total: nat, currentPage: int, lastPage: int)

  datatype Detail = Detail(destination: Row<Destination>, reviews: seq<Row<Review>>)

  const PerPage: nat := 10

  /** `$request->filled(key)`: present and not blank. */
  predicate Filled(o: Option<string>)
  {
    o.Some? && Required(o.value)
  }

  /** The `where` clauses: the term in any of four columns, then the exact type and country; unfilled filters drop out. */
  predicate Matches(d: Destination, f: Filters)
  {
    && (Filled(f.search) ==>
          ContainsSub(d.name, f.search.value) || ContainsSub(d.country, f.search.value)
          || ContainsSub(d.kind, f.search.value) || ContainsSub(d.city, f.search.value))
    && (Filled(f.kind) ==> d.kind == f.kind.value)
    && (Filled(f.country) ==> d.country == f.country.value)
  }

  /** `orderBy('name')`. */
  predicate NameLe(x: Row<Destination>, y: Row<Destination>)
  {
    StrLe(x.val.name, y.val.name)
  }

  lemma NameOrder()
    ensures TotalPreorder(NameLe)
  {
    forall x: Row<Destination>, y: Row<Destination> ensures NameLe(x, y) || NameLe(y, x) {
      StrLeTotal(x.val.name, y.val.name);
    }
    forall x: Row<Destination>, y: Row<Destination>, z: Row<Destination> | NameLe(x, y) && NameLe(y, z)
      ensures NameLe(x, z)
    {
      StrLeTransitive(x.val.name, y.val.name, z.val.name);
    }
  }

  /** Every matching destination, in name order. */
  function Listing(destinations: seq<Row<Destination>>, f: Filters): (r: seq<Row<Destination>>)
    ensures SortedBy(r, NameLe)
    ensures multiset(r) == multiset(Where(destinations, (d: Destination) => Matches(d, f)))
  {
    NameOrder();
    Sort(Where(destinations, (d: Destination) => Matches(d, f)), NameLe)
  }

  /** The page the paginator serves: the requested one when it is a whole number of at least 1, else the first. */
  function CurrentPage(page: Option<int>): (p: int)
    ensures p >= 1
    ensures page.Some? && page.value >= 1 ==> p == page.value
    ensures page.None? || page.value < 1 ==> p == 1
  {
    if page.Some? && page.value >= 1 then page.value else 1
  }

  /** `ceil(n / 10)`: the number of pages `n` results fill. */
  function LastPage(n: nat): (last: int)
    requires n > 0
    ensures (last - 1) * PerPage < n <= last * PerPage
  {
    var q := (n + PerPage - 1) / PerPage;
    assert n + PerPage - 1 == q * PerPage + (n + PerPage - 1) % PerPage;
    q
  }

  /** The at most ten results from `start` on. */
  function Window<T>(all: seq<T>, start: nat): (w: seq<T>)
    ensures |w| <= PerPage
    ensures start >= |all| ==> w == []
    ensures start < |all| ==> |w| == (if start + PerPage <= |all| then PerPage else |all| - start)
    ensures forall j :: 0 <= j < |w| ==> start + j < |all| && w[j] == all[start + j]
  {
    if start >= |all| then []
    else if start + PerPage <= |all| then all[start .. start + PerPage]
    else all[start..]
  }

  /** `index()`: the filtered, name-sorted listing cut to the current page. */
  function Index(destinations: seq<Row<Destination>>, f: Filters, page: Option<int>): (r: Paged)
    ensures |r.items| <= PerPage
    ensures r.total == |Where(destinations, (d: Destination) => Matches(d, f))|
    ensures r.currentPage == CurrentPage(page)
    ensures r.total == 0 ==> r.lastPage == 1
    ensures r.total > 0 ==> (r.lastPage - 1) * PerPage < r.total <= r.lastPage * PerPage
    ensures SortedBy(r.items, NameLe)
    ensures forall x :: x in r.items ==> x in destinations && Matches(x.val, f)
    ensures r.currentPage > r.lastPage ==> r.items == []
    ensures r.items == Window(Listing(destinations, f), (r.currentPage - 1) * PerPage)
  {
    var all := Listing(destinations, f);
    var p := CurrentPage(page);
    var items := Window(all, (p - 1) * PerPage);
    ListingMembers(destinations, f);
    var last := if |all| == 0 then 1 else LastPage(|all|);
    Paged(items, |all|, p, last)
  }

  /** `show($id)`: the destination with its reviews, or 404. */
  function Show(destinations: seq<Row<Destination>>, reviews: seq<Row<Review>>, id: Id): (r: Result<Detail>)
    ensures r.Failure? <==> !Has(destinations, id)
    ensures r.Failure? ==> r.error == NotFound
    ensures r.Success? ==> r.value.destination in destinations && r.value.destination.id == id
    ensures r.Success? ==> forall x :: x in r.value.reviews <==> x in reviews && x.val.destinationId == id
  {
    match Lookup(destinations, id)
    case None => Failure(NotFound)
    case Some(d) => Success(Detail(Row(id, d), Where(reviews, (v: Review) => v.destinationId == id)))
  }

  // ---------------------------------------------------------------------------
  // What the search promises.

  /** A destination is listed exactly when it is stored and passes every filled filter. */
  lemma ListingMembers(destinations: seq<Row<Destination>>, f: Filters)
    ensures forall x :: x in Listing(destinations, f) <==> x in destinations && Matches(x.val, f)
  {
    forall x ensures x in Listing(destinations, f) <==> x in destinations && Matches(x.val, f) {
      SameElements(Listing(destinations, f), Where(destinations, (d: Destination) => Matches(d, f)), x);
    }
  }

  /** With no filter filled, every destination is listed, each as often as it is stored. */
  lemma NoFiltersListsAll(destinations: seq<Row<Destination>>, f: Filters)
    requires !Filled(f.search) && !Filled(f.kind) && !Filled(f.country)
    ensures multiset(Listing(destinations, f)) == multiset(destinations)
  {
    WhereAll(destinations, (d: Destination) => Matches(d, f));
  }

  lemma {:induction false} WhereAll<T(!new)>(t: seq<Row<T>>, p: T -> bool)
    requires forall k :: 0 <= k < |t| ==> p(t[k].val)
    ensures Where(t, p) == t
  {
    if t != [] {
      assert forall k :: 0 <= k < |t[1..]| ==> t[1..][k] == t[k + 1];
      WhereAll(t[1..], p);
      assert t == [t[0]] + t[1..];
    }
  }

  /** The search term is tried against name, country, type and city, and nothing else. */
  lemma SearchLooksAtFourColumns(d: Destination, term: string)
    requires Required(term)
    ensures Matches(d, Filters(Some(term), None, None)) <==>
      ContainsSub(d.name, term) || ContainsSub(d.country, term) || ContainsSub(d.kind, term) || ContainsSub(d.city, term)
  {
  }

  /** Paging loses nothing: the k-th result in name order is item k mod 10 of page k div 10 + 1. */
  lemma PagesCoverListing(destinations: seq<Row<Destination>>, f: Filters, k: nat)
    requires k < |Listing(destinations, f)|
    ensures var r := Index(destinations, f, Some(k / PerPage + 1));
      k % PerPage < |r.items| && r.items[k % PerPage] == Listing(destinations, f)[k]
  {
    var start := (k / PerPage) * PerPage;
    assert start + k % PerPage == k;
    assert CurrentPage(Some(k / PerPage + 1)) - 1 == k / PerPage;
  }
}
