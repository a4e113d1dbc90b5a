/**
 * The share-link record: when a link is active, which comments hang off it,
 * and how a public token is resolved to a link.
 */
module ShareLinkModel {
  import opened Common
  import opened Table
  import opened Schema

  /** `scopeActive`: not revoked, and no expiry or an expiry strictly after `now`. */
  predicate IsActive(l: ShareLink, now: int)
  {
    l.revokedAt.None? && (l.expiresAt.None? || l.expiresAt.value > now)
  }

  /** The state a link is in at `now`, computed from its two timestamps. */
  datatype LinkState = Active | Revoked(at: int) | Expired(at: int)

  function StateAt(l: ShareLink, now: int): (s: LinkState)
    ensures s == Active <==> IsActive(l, now)
    ensures s.Revoked? <==> l.revokedAt.Some?
    ensures s.Expired? ==> l.expiresAt.Some? && l.expiresAt.value <= now
  {
    if l.revokedAt.Some? then Revoked(l.revokedAt.value)
    else if l.expiresAt.Some? && l.expiresAt.value <= now then Expired(l.expiresAt.value)
    else Active
  }

  lemma RevokedNeverActive(l: ShareLink, now: int)
    requires l.revokedAt.Some?
    ensures !IsActive(l, now)
  {
  }

  /** The expiry comparison is strict: at the instant of expiry a link is already inactive. */
  lemma ExpiresAtNowIsInactive(l: ShareLink, now: int)
    requires l.expiresAt == Some(now)
    ensures !IsActive(l, now)
  {
  }

  /** With the timestamps fixed, a link never comes back to life as time passes. */
  lemma InactiveStaysInactive(l: ShareLink, t: int, later: int)
    requires t <= later && !IsActive(l, t)
    ensures !IsActive(l, later)
  {
  }

  predicate TokenTaken(links: seq<Row<ShareLink>>, token: string)
  {
    exists i :: 0 <= i < |links| && links[i].val.token == token
  }

  /** The unique index on `token`. */
  predicate TokensUnique(links: seq<Row<ShareLink>>)
  {
    forall i, j :: 0 <= i < j < |links| ==> links[i].val.token != links[j].val.token
  }

  predicate OfLink(c: ShareComment, linkId: Id)
  {
    c.linkId == linkId
  }

  /** `comments()`: the comments whose `trip_share_link_id` is the link's key. */
  function CommentsOf(comments: seq<Row<ShareComment>>, linkId: Id): (r: seq<Row<ShareComment>>)
    ensures forall x :: x in r <==> x in comments && x.val.linkId == linkId
  {
    Where(comments, (c: ShareComment) => OfLink(c, linkId))
  }

  /** `active()->where('token', $token)->first()`: the first active link carrying `token`. */
  function ActiveByToken(links: seq<Row<ShareLink>>, token: string, now: int): (r: Option<Row<ShareLink>>)
    ensures r.Some? ==> r.value in links && r.value.val.token == token && IsActive(r.value.val, now)
    ensures r.None? <==> forall x :: x in links && x.val.token == token ==> !IsActive(x.val, now)
  {
    if links == [] then None
    else if links[0].val.token == token && IsActive(links[0].val, now) then Some(links[0])
    else
      assert forall x :: x in links <==> x == links[0] || x in links[1..];
      ActiveByToken(links[1..], token, now)
  }
}
