/**
 * Comments on a shared trip page. Anyone holding an active token may post;
 * the author's user id is recorded when a session exists. Editing and
 * deleting require the comment to hang off that link (404), a session (403)
 * and authorship (403). Comments posted without a session have a NULL author,
 * which PHP's `(int)` cast turns into 0, so nobody can ever edit them.
 */
module SharedTripCommentController {
  import opened Common
  import opened Table
  import opened Schema
  import opened ShareLinkModel

  /** The submitted form; `None` is a missing or empty field. */
  datatype CommentForm = CommentForm(name: Option<string>, email: Option<string>, body: Option<string>)

  /** `name: required|max:120`, `email: nullable|email|max:190`, `body: required|max:1000`. */
  predicate ValidComment(f: CommentForm)
  {
    && FilledAtMost(f.name, 120)
    && (f.email.None? || (IsEmail(f.email.value) && AtMost(f.email.value, 190)))
    && FilledAtMost(f.body, 1000)
  }

  /**
   * The checks `update` and `destroy` make before touching the comment:
   * the bound comment exists, the token is active, the comment belongs to
   * that link, a user is signed in, and `(int) user_id === (int) Auth::id()`.
   */
  function CommentGate(
    links: seq<Row<ShareLink>>, comments: seq<Row<ShareComment>>,
    token: string, user: Option<Id>, commentId: Id, now: int): (r: Outcome)
    ensures r == Ok || r == Fail(NotFound) || r == Fail(Forbidden)
    ensures !Has(comments, commentId) ==> r == Fail(NotFound)
    ensures (forall x :: x in links && x.val.token == token ==> !IsActive(x.val, now)) ==> r == Fail(NotFound)
    ensures user.None? ==> r != Ok
  {
    match Lookup(comments, commentId)
    case None => Fail(NotFound)
    case Some(c) =>
      match ActiveByToken(links, token, now)
      case None => Fail(NotFound)
      case Some(link) =>
        if c.linkId != link.id then Fail(NotFound)
        else if user.None? then Fail(Forbidden)
        else if IntOrZero(c.userId) != user.value then Fail(Forbidden)
        else Ok
  }

  /** The comment's record with a new body and nothing else changed. */
  function WithBody(comments: seq<Row<ShareComment>>, commentId: Id, body: string): seq<Row<ShareComment>>
  {
    match Lookup(comments, commentId)
    case None => comments
    case Some(c) => Set(comments, commentId, c.(body := body))
  }

  /** `store($token)`. */
  method StoreComment(db: Database, token: string, user: Option<Id>, form: CommentForm, now: int) returns (r: Outcome)
    requires db.Valid()
    modifies db`comments, db`nextId
    ensures db.Valid()
    ensures ActiveByToken(db.links, token, now).None? ==>
      r == Fail(NotFound) && unchanged(db)
    ensures ActiveByToken(db.links, token, now).Some? && !ValidComment(form) ==>
      r == Fail(ValidationFailed) && unchanged(db)
    ensures ActiveByToken(db.links, token, now).Some? && ValidComment(form) ==>
      r == Ok && db.nextId == old(db.nextId) + 1 &&
      db.comments == old(db.comments) + [Row(old(db.nextId), ShareComment(
        ActiveByToken(db.links, token, now).value.id, user,
        form.name.value, form.email, form.body.value, now))]
  {
    var link := ActiveByToken(db.links, token, now);
    if link.None? {
      return Fail(NotFound);
    }
    if !ValidComment(form) {
      return Fail(ValidationFailed);
    }
    var c := ShareComment(link.value.id, user, form.name.value, form.email, form.body.value, now);
    BelowExtend(db.comments, db.nextId, c);
    db.comments := db.comments + [Row(db.nextId, c)];
    db.nextId := db.nextId + 1;
    r := Ok;
  }

  /** `update($token, $comment)`: only the body changes. */
  method UpdateComment(db: Database, token: string, user: Option<Id>, commentId: Id, body: Option<string>, now: int)
    returns (r: Outcome)
    requires db.Valid()
    modifies db`comments
    ensures db.Valid()
    ensures CommentGate(db.links, old(db.comments), token, user, commentId, now) != Ok ==>
      r == CommentGate(db.links, old(db.comments), token, user, commentId, now) && db.comments == old(db.comments)
    ensures CommentGate(db.links, old(db.comments), token, user, commentId, now) == Ok && !FilledAtMost(body, 1000) ==>
      r == Fail(ValidationFailed) && db.comments == old(db.comments)
    ensures CommentGate(db.links, old(db.comments), token, user, commentId, now) == Ok && FilledAtMost(body, 1000) ==>
      r == Ok && db.comments == WithBody(old(db.comments), commentId, body.value)
  {
    r := CommentGate(db.links, db.comments, token, user, commentId, now);
    if r != Ok {
      return;
    }
    if !FilledAtMost(body, 1000) {
      return Fail(ValidationFailed);
    }
    WithBodyKeepsKeys(db.comments, commentId, body.value);
    db.comments := WithBody(db.comments, commentId, body.value);
  }

  /** `destroy($token, $comment)`. */
  method DestroyComment(db: Database, token: string, user: Option<Id>, commentId: Id, now: int) returns (r: Outcome)
    requires db.Valid()
    modifies db`comments
    ensures db.Valid()
    ensures r == CommentGate(db.links, old(db.comments), token, user, commentId, now)
    ensures r != Ok ==> db.comments == old(db.comments)
    ensures r == Ok ==> db.comments == Delete(old(db.comments), commentId)
  {
    r := CommentGate(db.links, db.comments, token, user, commentId, now);
    if r == Ok {
      DeleteFresh(db.comments, commentId, db.nextId);
      db.comments := Delete(db.comments, commentId);
    }
  }

  // ---------------------------------------------------------------------------
  // What the checks promise.

  /** The gate lets a request through exactly when the signed-in user wrote this comment on an active link with this token. */
  lemma GateOkIff(
    links: seq<Row<ShareLink>>, comments: seq<Row<ShareComment>>,
    token: string, user: Option<Id>, commentId: Id, now: int)
    requires Keyed(comments) && TokensUnique(links)
    ensures CommentGate(links, comments, token, user, commentId, now) == Ok <==>
      exists c, l ::
        && Row(commentId, c) in comments && l in links
        && l.val.token == token && IsActive(l.val, now)
        && c.linkId == l.id && c.userId.Some? && user == c.userId
  {
    if CommentGate(links, comments, token, user, commentId, now) == Ok {
      var c := Lookup(comments, commentId).value;
      var l := ActiveByToken(links, token, now).value;
      assert Row(commentId, c) in comments && l in links;
    }
    if exists c, l ::
        && Row(commentId, c) in comments && l in links
        && l.val.token == token && IsActive(l.val, now)
        && c.linkId == l.id && c.userId.Some? && user == c.userId
    {
      var c, l :|
        && Row(commentId, c) in comments && l in links
        && l.val.token == token && IsActive(l.val, now)
        && c.linkId == l.id && c.userId.Some? && user == c.userId;
      var i :| 0 <= i < |comments| && comments[i] == Row(commentId, c);
      assert Lookup(comments, commentId) == Some(c);
      var found := ActiveByToken(links, token, now).value;
      var j :| 0 <= j < |links| && links[j] == l;
      var k :| 0 <= k < |links| && links[k] == found;
      assert j == k;
    }
  }

  /** A comment posted without a session can be edited or deleted by nobody. */
  lemma GuestCommentImmutable(
    links: seq<Row<ShareLink>>, comments: seq<Row<ShareComment>>,
    token: string, user: Option<Id>, commentId: Id, now: int)
    requires Keyed(comments)
    requires exists c :: Row(commentId, c) in comments && c.userId.None?
    ensures CommentGate(links, comments, token, user, commentId, now) != Ok
  {
    var c :| Row(commentId, c) in comments && c.userId.None?;
    var i :| 0 <= i < |comments| && comments[i] == Row(commentId, c);
    assert Lookup(comments, commentId) == Some(c);
  }

  /** A signed-in user who is not the author is refused with 403 once the link checks pass. */
  lemma OtherUsersForbidden(
    links: seq<Row<ShareLink>>, comments: seq<Row<ShareComment>>,
    token: string, user: Id, commentId: Id, now: int)
    requires Keyed(comments)
    requires exists c, l ::
      && Row(commentId, c) in comments && ActiveByToken(links, token, now) == Some(l)
      && c.linkId == l.id && c.userId != Some(user)
    ensures CommentGate(links, comments, token, Some(user), commentId, now) == Fail(Forbidden)
  {
    var c, l :|
      && Row(commentId, c) in comments && ActiveByToken(links, token, now) == Some(l)
      && c.linkId == l.id && c.userId != Some(user);
    var i :| 0 <= i < |comments| && comments[i] == Row(commentId, c);
    assert Lookup(comments, commentId) == Some(c);
  }

  /** A comment from another link's page is not found through this token, whoever asks. */
  lemma ForeignCommentNotFound(
    links: seq<Row<ShareLink>>, comments: seq<Row<ShareComment>>,
    token: string, user: Option<Id>, commentId: Id, now: int)
    requires Keyed(comments)
    requires exists c, l ::
      Row(commentId, c) in comments && ActiveByToken(links, token, now) == Some(l) && c.linkId != l.id
    ensures CommentGate(links, comments, token, user, commentId, now) == Fail(NotFound)
  {
    var c, l :| Row(commentId, c) in comments && ActiveByToken(links, token, now) == Some(l) && c.linkId != l.id;
    var i :| 0 <= i < |comments| && comments[i] == Row(commentId, c);
    assert Lookup(comments, commentId) == Some(c);
  }

  lemma WithBodyKeepsKeys(comments: seq<Row<ShareComment>>, commentId: Id, body: string)
    ensures |WithBody(comments, commentId, body)| == |comments|
    ensures forall i :: 0 <= i < |comments| ==> WithBody(comments, commentId, body)[i].id == comments[i].id
  {
  }

  /**
   * Editing rewrites the body of the one comment and nothing else: its link,
   * author, name, e-mail and time stay, and every other comment is untouched.
   */
  lemma EditChangesOnlyBody(comments: seq<Row<ShareComment>>, commentId: Id, body: string)
    requires Keyed(comments)
    ensures |WithBody(comments, commentId, body)| == |comments|
    ensures forall i :: 0 <= i < |comments| ==>
      var (a, b) := (comments[i], WithBody(comments, commentId, body)[i]);
      && b.id == a.id
      && (a.id == commentId ==> b.val == a.val.(body := body))
      && (a.id != commentId ==> b == a)
  {
  }

  /** Deleting an existing comment removes exactly that one row. */
  lemma DeleteRemovesTheComment(comments: seq<Row<ShareComment>>, commentId: Id)
    requires Keyed(comments) && Has(comments, commentId)
    ensures |Delete(comments, commentId)| == |comments| - 1
    ensures !Has(Delete(comments, commentId), commentId)
    ensures forall x :: x in comments && x.id != commentId ==> x in Delete(comments, commentId)
  {
    DeleteRemovesOne(comments, commentId);
  }
}
