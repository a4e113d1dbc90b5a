/**
 * Generating and revoking a trip's public share link. Generating revokes
 * every unrevoked link of the trip in place and then inserts a fresh one;
 * revoking only does the first half. Rows are never deleted.
 */
module ShareLinkController {
  import opened Common
  import opened Table
  import opened Schema
  import opened ShareLinkModel

  predicate UnrevokedOfTrip(l: ShareLink, tripId: Id)
  {
    l.tripId == tripId && l.revokedAt.None?
  }

  function StampRevoked(l: ShareLink, now: int): ShareLink
  {
    l.(revokedAt := Some(now))
  }

  /** `where('trip_id', $trip->id)->whereNull('revoked_at')->update(['revoked_at' => now()])`. */
  function RevokeAll(links: seq<Row<ShareLink>>, tripId: Id, now: int): seq<Row<ShareLink>>
  {
    UpdateWhere(links, (l: ShareLink) => UnrevokedOfTrip(l, tripId), (l: ShareLink) => StampRevoked(l, now))
  }

  /** The trip's links that are still unrevoked. */
  function Unrevoked(links: seq<Row<ShareLink>>, tripId: Id): seq<Row<ShareLink>>
  {
    Where(links, (l: ShareLink) => UnrevokedOfTrip(l, tripId))
  }

  /** The record `store` inserts: no expiry, not revoked. */
  function NewLink(tripId: Id, createdBy: Id, token: string): ShareLink
  {
    ShareLink(tripId, createdBy, token, None, None)
  }

  /** No trip has two unrevoked links. */
  predicate SingleUnrevoked(links: seq<Row<ShareLink>>)
  {
    forall i, j :: 0 <= i < j < |links| && links[i].val.tripId == links[j].val.tripId
      ==> links[i].val.revokedAt.Some? || links[j].val.revokedAt.Some?
  }

  /**
   * `store`. The token is the 64 random characters `Str::random(64)` draws;
   * if it collides with an existing token the insert fails on the unique
   * index after the revocation has already been written.
   */
  method Store(db: Database, user: Option<Id>, tripId: Id, token: string, now: int) returns (r: Outcome)
    requires db.Valid()
    requires |token| == 64
    modifies db`links, db`nextId
    ensures db.Valid()
    ensures OwnerGate(db.trips, user, tripId) != Ok ==>
      r == OwnerGate(db.trips, user, tripId) && db.links == old(db.links) && db.nextId == old(db.nextId)
    ensures OwnerGate(db.trips, user, tripId) == Ok && TokenTaken(old(db.links), token) ==>
      r == Fail(ServerError) && db.links == RevokeAll(old(db.links), tripId, now) && db.nextId == old(db.nextId)
    ensures OwnerGate(db.trips, user, tripId) == Ok && !TokenTaken(old(db.links), token) ==>
      r == Ok && user.Some? &&
      db.links == RevokeAll(old(db.links), tripId, now) + [Row(old(db.nextId), NewLink(tripId, user.value, token))] &&
      db.nextId == old(db.nextId) + 1
  {
    r := OwnerGate(db.trips, user, tripId);
    if r != Ok {
      return;
    }
    RevokeInPlace(db, tripId, now);
    var taken := TokenIn(db.links, token);
    if taken {
      RevokeKeepsTokens(old(db.links), tripId, now, token);
      r := Fail(ServerError);
      return;
    }
    RevokeKeepsTokens(old(db.links), tripId, now, token);
    BelowExtend(db.links, db.nextId, NewLink(tripId, user.value, token));
    db.links := db.links + [Row(db.nextId, NewLink(tripId, user.value, token))];
    db.nextId := db.nextId + 1;
  }

  /** `destroy`: revoke every unrevoked link of the trip. */
  method Destroy(db: Database, user: Option<Id>, tripId: Id, now: int) returns (r: Outcome)
    requires db.Valid()
    modifies db`links
    ensures db.Valid()
    ensures r == OwnerGate(db.trips, user, tripId)
    ensures r == Ok ==> db.links == RevokeAll(old(db.links), tripId, now)
    ensures r != Ok ==> db.links == old(db.links)
  {
    r := OwnerGate(db.trips, user, tripId);
    if r == Ok {
      RevokeInPlace(db, tripId, now);
    }
  }

  /** The bulk update, row by row. */
  method RevokeInPlace(db: Database, tripId: Id, now: int)
    requires db.Valid()
    modifies db`links
    ensures db.Valid()
    ensures db.links == RevokeAll(old(db.links), tripId, now)
  {
    ghost var before := db.links;
    var i := 0;
    while i < |db.links|
      invariant 0 <= i <= |db.links| == |before|
      invariant forall k :: 0 <= k < i ==> db.links[k] == RevokeAll(before, tripId, now)[k]
      invariant forall k :: i <= k < |db.links| ==> db.links[k] == before[k]
    {
      var row := db.links[i];
      if UnrevokedOfTrip(row.val, tripId) {
        db.links := db.links[i := Row(row.id, StampRevoked(row.val, now))];
      }
      i := i + 1;
    }
    assert db.links == RevokeAll(before, tripId, now);
    assert forall k :: 0 <= k < |db.links| ==> db.links[k].id == before[k].id;
  }

  method TokenIn(links: seq<Row<ShareLink>>, token: string) returns (b: bool)
    ensures b == TokenTaken(links, token)
  {
    b := false;
    var i := 0;
    while i < |links|
      invariant 0 <= i <= |links|
      invariant b <==> exists k :: 0 <= k < i && links[k].val.token == token
    {
      if links[i].val.token == token {
        b := true;
      }
      i := i + 1;
    }
  }

  // ---------------------------------------------------------------------------
  // What generating and revoking promise.

  lemma RevokeKeepsTokens(links: seq<Row<ShareLink>>, tripId: Id, now: int, token: string)
    ensures TokenTaken(RevokeAll(links, tripId, now), token) == TokenTaken(links, token)
  {
    var r := RevokeAll(links, tripId, now);
    assert forall k :: 0 <= k < |links| ==> r[k].val.token == links[k].val.token;
  }

  /** Revocation rewrites only `revoked_at`, and only on this trip's unrevoked rows. */
  lemma RevokeAllChangesOnlyStamps(links: seq<Row<ShareLink>>, tripId: Id, now: int)
    ensures |RevokeAll(links, tripId, now)| == |links|
    ensures forall k :: 0 <= k < |links| ==>
      var (a, b) := (links[k], RevokeAll(links, tripId, now)[k]);
      && b.id == a.id && b.val.tripId == a.val.tripId && b.val.token == a.val.token
      && b.val.createdBy == a.val.createdBy && b.val.expiresAt == a.val.expiresAt
      && (if UnrevokedOfTrip(a.val, tripId) then b.val.revokedAt == Some(now) else b == a)
  {
  }

  /** After revocation the trip has no unrevoked link. */
  lemma {:induction false} RevokeAllClears(links: seq<Row<ShareLink>>, tripId: Id, now: int)
    ensures Unrevoked(RevokeAll(links, tripId, now), tripId) == []
  {
    var r := RevokeAll(links, tripId, now);
    forall k | 0 <= k < |r| ensures !UnrevokedOfTrip(r[k].val, tripId) {
      if UnrevokedOfTrip(links[k].val, tripId) {
        assert r[k].val == StampRevoked(links[k].val, now);
      } else {
        assert r[k] == links[k];
      }
    }
    WhereNone(r, (l: ShareLink) => UnrevokedOfTrip(l, tripId));
  }

  /** Revoking twice is revoking once: the first timestamps stay. */
  lemma RevokeAllIdempotent(links: seq<Row<ShareLink>>, tripId: Id, now: int, later: int)
    ensures RevokeAll(RevokeAll(links, tripId, now), tripId, later) == RevokeAll(links, tripId, now)
  {
    var once := RevokeAll(links, tripId, now);
    var twice := RevokeAll(once, tripId, later);
    forall k | 0 <= k < |once| ensures twice[k] == once[k] {
      if UnrevokedOfTrip(links[k].val, tripId) {
        assert once[k].val == StampRevoked(links[k].val, now);
      } else {
        assert once[k] == links[k];
      }
    }
  }

  /** After `store` the trip's only unrevoked link is the one just inserted. */
  lemma StoreLeavesExactlyOne(links: seq<Row<ShareLink>>, tripId: Id, now: int, newId: Id, createdBy: Id, token: string)
    ensures Unrevoked(RevokeAll(links, tripId, now) + [Row(newId, NewLink(tripId, createdBy, token))], tripId)
      == [Row(newId, NewLink(tripId, createdBy, token))]
  {
    var added := [Row(newId, NewLink(tripId, createdBy, token))];
    WhereAppend(RevokeAll(links, tripId, now), added, (l: ShareLink) => UnrevokedOfTrip(l, tripId));
    RevokeAllClears(links, tripId, now);
  }

  /** The trip's link count grows by exactly one: revoked rows stay in the table. */
  lemma StoreAddsOneRow(links: seq<Row<ShareLink>>, tripId: Id, now: int, newId: Id, createdBy: Id, token: string)
    ensures Count(RevokeAll(links, tripId, now) + [Row(newId, NewLink(tripId, createdBy, token))], (l: ShareLink) => l.tripId == tripId)
      == Count(links, (l: ShareLink) => l.tripId == tripId) + 1
  {
    var ofTrip := (l: ShareLink) => l.tripId == tripId;
    CountAppend(RevokeAll(links, tripId, now), [Row(newId, NewLink(tripId, createdBy, token))], ofTrip);
    CountUpdateWhere(links, (l: ShareLink) => UnrevokedOfTrip(l, tripId), (l: ShareLink) => StampRevoked(l, now), ofTrip);
  }

  /** Links of other trips are left exactly as they were. */
  lemma OtherTripsUntouched(links: seq<Row<ShareLink>>, tripId: Id, now: int, k: nat)
    requires k < |links| && links[k].val.tripId != tripId
    ensures k < |RevokeAll(links, tripId, now)| && RevokeAll(links, tripId, now)[k] == links[k]
  {
  }

  /** Revocation preserves "at most one unrevoked link per trip". */
  lemma RevokePreservesSingle(links: seq<Row<ShareLink>>, tripId: Id, now: int)
    requires SingleUnrevoked(links)
    ensures SingleUnrevoked(RevokeAll(links, tripId, now))
  {
  }

  /** So does generation, and it preserves the unique-token index too. */
  lemma StorePreservesInvariants(links: seq<Row<ShareLink>>, tripId: Id, now: int, newId: Id, createdBy: Id, token: string)
    requires SingleUnrevoked(links) && TokensUnique(links) && !TokenTaken(links, token)
    ensures SingleUnrevoked(RevokeAll(links, tripId, now) + [Row(newId, NewLink(tripId, createdBy, token))])
    ensures TokensUnique(RevokeAll(links, tripId, now) + [Row(newId, NewLink(tripId, createdBy, token))])
  {
    var r := RevokeAll(links, tripId, now);
    var s := r + [Row(newId, NewLink(tripId, createdBy, token))];
    forall i, j | 0 <= i < j < |s| && s[i].val.tripId == s[j].val.tripId
      ensures s[i].val.revokedAt.Some? || s[j].val.revokedAt.Some?
    {
      if j == |r| {
        assert s[i] == r[i];
      }
    }
  }

  /** The new link is live at once: its token resolves to it. */
  lemma StoredLinkResolves(links: seq<Row<ShareLink>>, tripId: Id, now: int, newId: Id, createdBy: Id, token: string, at: int)
    requires !TokenTaken(links, token)
    ensures ActiveByToken(RevokeAll(links, tripId, now) + [Row(newId, NewLink(tripId, createdBy, token))], token, at)
      == Some(Row(newId, NewLink(tripId, createdBy, token)))
  {
    var r := RevokeAll(links, tripId, now);
    RevokeKeepsTokens(links, tripId, now, token);
    ActiveByTokenSkips(r, [Row(newId, NewLink(tripId, createdBy, token))], token, at);
  }

  /** And every earlier link of the trip stops resolving: old holders are locked out. */
  lemma OldTokensStopResolving(links: seq<Row<ShareLink>>, tripId: Id, now: int, newId: Id, createdBy: Id, token: string, old_token: string, at: int)
    requires TokensUnique(links) && !TokenTaken(links, token)
    requires exists i :: 0 <= i < |links| && links[i].val.tripId == tripId && links[i].val.token == old_token
    ensures ActiveByToken(RevokeAll(links, tripId, now) + [Row(newId, NewLink(tripId, createdBy, token))], old_token, at) == None
  {
    var r := RevokeAll(links, tripId, now);
    var s := r + [Row(newId, NewLink(tripId, createdBy, token))];
    var i :| 0 <= i < |links| && links[i].val.tripId == tripId && links[i].val.token == old_token;
    forall x | x in s && x.val.token == old_token
      ensures !IsActive(x.val, at)
    {
      var k :| 0 <= k < |s| && s[k] == x;
      if k < |r| {
        assert r[k].val.token == links[k].val.token;
        assert k == i;
      }
    }
  }

  lemma {:induction false} ActiveByTokenSkips(a: seq<Row<ShareLink>>, b: seq<Row<ShareLink>>, token: string, now: int)
    requires !TokenTaken(a, token)
    ensures ActiveByToken(a + b, token, now) == ActiveByToken(b, token, now)
  {
    if a != [] {
      assert (a + b)[0] == a[0];
      assert (a + b)[1..] == a[1..] + b;
      assert !TokenTaken(a[1..], token) by {
        forall k | 0 <= k < |a[1..]| ensures a[1..][k].val.token != token {
          assert a[1..][k] == a[k + 1];
        }
      }
      ActiveByTokenSkips(a[1..], b, token, now);
    } else {
      assert a + b == b;
    }
  }
}
