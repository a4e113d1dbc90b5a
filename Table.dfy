/**
 * A database table as a sequence of rows in insertion order, each row a
 * primary key and a record. The operations are the queries and bulk
 * statements the controllers issue through Eloquent.
 */
module Table {
  import opened Common

  datatype Row<+T> = Row(id: Id, val: T)

  /** The primary key is unique. */
  predicate Keyed<T>(t: seq<Row<T>>)
  {
    forall i, j :: 0 <= i < j < |t| ==> t[i].id != t[j].id
  }

  /** Every key was handed out before `bound`. */
  predicate Below<T>(t: seq<Row<T>>, bound: int)
  {
    forall i :: 0 <= i < |t| ==> t[i].id < bound
  }

  predicate Fresh<T>(t: seq<Row<T>>, bound: int)
  {
    Keyed(t) && Below(t, bound)
  }

  predicate Has<T>(t: seq<Row<T>>, id: Id)
  {
    exists i :: 0 <= i < |t| && t[i].id == id
  }

  /** `find($id)`: the record stored under `id`, if any. */
  function Lookup<T>(t: seq<Row<T>>, id: Id): (r: Option<T>)
    ensures r.Some? <==> Has(t, id)
    ensures r.Some? ==> Row(id, r.value) in t
    ensures Keyed(t) ==> forall i :: 0 <= i < |t| && t[i].id == id ==> r == Some(t[i].val)
  {
    if t == [] then None
    else if t[0].id == id then Some(t[0].val)
    else
      var r := Lookup(t[1..], id);
      assert forall i :: 1 <= i < |t| ==> t[i] == t[1..][i - 1];
      r
  }

  /** `where(...)->get()`: the rows whose record satisfies `p`, in table order. */
  function Where<T(!new)>(t: seq<Row<T>>, p: T -> bool): (r: seq<Row<T>>)
    ensures forall x :: x in r <==> x in t && p(x.val)
    ensures |r| <= |t|
  {
    if t == [] then []
    else
      assert forall x :: x in t <==> x == t[0] || x in t[1..];
      if p(t[0].val) then [t[0]] + Where(t[1..], p) else Where(t[1..], p)
  }

  /** `->delete()` on one row: every row but the one keyed `id`. */
  function Delete<T(!new)>(t: seq<Row<T>>, id: Id): (r: seq<Row<T>>)
    ensures forall x :: x in r <==> x in t && x.id != id
    ensures |r| <= |t|
  {
    if t == [] then []
    else
      assert forall x :: x in t <==> x == t[0] || x in t[1..];
      if t[0].id == id then Delete(t[1..], id) else [t[0]] + Delete(t[1..], id)
  }

  /** `->update(...)` on one row: the row keyed `id` gets record `v`. */
  function Set<T>(t: seq<Row<T>>, id: Id, v: T): (r: seq<Row<T>>)
  {
    seq(|t|, i requires 0 <= i < |t| => if t[i].id == id then Row(id, v) else t[i])
  }

  /** A bulk `where(p)->update(f)`: every row matching `p` is rewritten by `f`. */
  function UpdateWhere<T>(t: seq<Row<T>>, p: T -> bool, f: T -> T): (r: seq<Row<T>>)
  {
    seq(|t|, i requires 0 <= i < |t| => if p(t[i].val) then Row(t[i].id, f(t[i].val)) else t[i])
  }

  /** `->count()` over the rows matching `p`. */
  function Count<T(!new)>(t: seq<Row<T>>, p: T -> bool): (n: nat)
    ensures n <= |t|
    ensures n == |Where(t, p)|
  {
    if t == [] then 0 else (if p(t[0].val) then 1 else 0) + Count(t[1..], p)
  }

  // ---------------------------------------------------------------------------
  // Facts about the operations.

  lemma {:induction false} WhereKeyed<T(!new)>(t: seq<Row<T>>, p: T -> bool)
    requires Keyed(t)
    ensures Keyed(Where(t, p))
  {
    if t != [] {
      assert Keyed(t[1..]);
      WhereKeyed(t[1..], p);
      var rest := Where(t[1..], p);
      forall x | x in rest ensures x.id != t[0].id {
        var k :| 0 <= k < |t[1..]| && t[1..][k] == x;
        assert t[k + 1] == x;
      }
    }
  }

  lemma {:induction false} DeleteKeyed<T(!new)>(t: seq<Row<T>>, id: Id)
    requires Keyed(t)
    ensures Keyed(Delete(t, id))
  {
    if t != [] {
      assert Keyed(t[1..]);
      DeleteKeyed(t[1..], id);
      var rest := Delete(t[1..], id);
      forall x | x in rest ensures x.id != t[0].id {
        var k :| 0 <= k < |t[1..]| && t[1..][k] == x;
        assert t[k + 1] == x;
      }
    }
  }

  /** Deleting a present key of a keyed table removes exactly one row. */
  lemma {:induction false} DeleteRemovesOne<T(!new)>(t: seq<Row<T>>, id: Id)
    requires Keyed(t) && Has(t, id)
    ensures |Delete(t, id)| == |t| - 1
    ensures !Has(Delete(t, id), id)
  {
    if t[0].id == id {
      assert Keyed(t[1..]);
      DeleteAbsent(t[1..], id);
    } else {
      assert Keyed(t[1..]);
      var k :| 0 <= k < |t| && t[k].id == id;
      assert t[1..][k - 1].id == id;
      DeleteRemovesOne(t[1..], id);
    }
  }

  /** Deleting an absent key changes nothing. */
  lemma {:induction false} DeleteAbsent<T(!new)>(t: seq<Row<T>>, id: Id)
    requires !Has(t, id)
    ensures Delete(t, id) == t
  {
    if t != [] {
      assert t[0].id != id;
      forall k | 0 <= k < |t[1..]| ensures t[1..][k].id != id {
        assert t[1..][k] == t[k + 1];
      }
      DeleteAbsent(t[1..], id);
      assert t == [t[0]] + t[1..];
    }
  }

  lemma SetKeyed<T>(t: seq<Row<T>>, id: Id, v: T)
    requires Keyed(t)
    ensures Keyed(Set(t, id, v)) && |Set(t, id, v)| == |t|
    ensures forall i :: 0 <= i < |t| ==> Set(t, id, v)[i].id == t[i].id
  {
  }

  lemma BelowExtend<T>(t: seq<Row<T>>, bound: int, v: T)
    requires bound >= 1 && Fresh(t, bound)
    ensures Fresh(t + [Row(bound as Id, v)], bound + 1)
  {
  }

  lemma WhereFresh<T(!new)>(t: seq<Row<T>>, p: T -> bool, bound: int)
    requires Fresh(t, bound)
    ensures Fresh(Where(t, p), bound)
  {
    WhereKeyed(t, p);
    var r := Where(t, p);
    forall i | 0 <= i < |r| ensures r[i].id < bound {
      assert r[i] in t;
    }
  }

  lemma DeleteFresh<T(!new)>(t: seq<Row<T>>, id: Id, bound: int)
    requires Fresh(t, bound)
    ensures Fresh(Delete(t, id), bound)
  {
    DeleteKeyed(t, id);
    var r := Delete(t, id);
    forall i | 0 <= i < |r| ensures r[i].id < bound {
      assert r[i] in t;
    }
  }

  lemma {:induction false} WhereAppend<T(!new)>(a: seq<Row<T>>, b: seq<Row<T>>, p: T -> bool)
    ensures Where(a + b, p) == Where(a, p) + Where(b, p)
  {
    if a == [] {
      assert a + b == b;
    } else {
      assert (a + b)[0] == a[0];
      assert (a + b)[1..] == a[1..] + b;
      WhereAppend(a[1..], b, p);
      if p(a[0].val) {
        assert Where(a + b, p) == [a[0]] + Where(a[1..] + b, p);
        assert Where(a, p) == [a[0]] + Where(a[1..], p);
      } else {
        assert Where(a + b, p) == Where(a[1..] + b, p);
        assert Where(a, p) == Where(a[1..], p);
      }
    }
  }

  lemma {:induction false} CountAppend<T(!new)>(a: seq<Row<T>>, b: seq<Row<T>>, p: T -> bool)
    ensures Count(a + b, p) == Count(a, p) + Count(b, p)
  {
    WhereAppend(a, b, p);
  }

  /** A bulk update that cannot change `q` leaves the number of `q` rows alone. */
  lemma {:induction false} CountUpdateWhere<T(!new)>(t: seq<Row<T>>, p: T -> bool, f: T -> T, q: T -> bool)
    requires forall x :: q(f(x)) == q(x)
    ensures Count(UpdateWhere(t, p, f), q) == Count(t, q)
  {
    if t != [] {
      var u := UpdateWhere(t, p, f);
      assert u[1..] == UpdateWhere(t[1..], p, f);
      CountUpdateWhere(t[1..], p, f, q);
    }
  }

  lemma {:induction false} WhereNone<T(!new)>(t: seq<Row<T>>, p: T -> bool)
    requires forall k :: 0 <= k < |t| ==> !p(t[k].val)
    ensures Where(t, p) == []
  {
    if t != [] {
      assert forall k :: 0 <= k < |t[1..]| ==> t[1..][k] == t[k + 1];
      WhereNone(t[1..], p);
    }
  }

  /** Writing the same record twice is writing it once. */
  lemma SetSet<T>(t: seq<Row<T>>, id: Id, v: T, w: T)
    ensures Set(Set(t, id, v), id, w) == Set(t, id, w)
  {
  }

  /** Writing back the record already stored under `id` changes nothing. */
  lemma SetSame<T>(t: seq<Row<T>>, id: Id, v: T)
    requires Keyed(t) && Lookup(t, id) == Some(v)
    ensures Set(t, id, v) == t
  {
    assert forall i :: 0 <= i < |t| && t[i].id == id ==> t[i] == Row(id, v);
  }

  /** After writing `v` under an existing key, looking that key up finds `v`. */
  lemma SetLookup<T>(t: seq<Row<T>>, id: Id, v: T)
    requires Keyed(t) && Has(t, id)
    ensures Keyed(Set(t, id, v))
    ensures Lookup(Set(t, id, v), id) == Some(v)
  {
    SetKeyed(t, id, v);
    var i :| 0 <= i < |t| && t[i].id == id;
    assert Set(t, id, v)[i] == Row(id, v);
  }
}
