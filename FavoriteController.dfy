/**
 * A user's favourite destinations: a set of (user, destination) pairs that
 * `toggle` flips one pair of and `isFavorited` tests.
 */
module FavoriteController {
  import opened Common
  import opened Table
  import opened Schema

  /** `isFavorited($destinationId)`: whether the pair is stored; the destination itself is not looked up. */
  predicate IsFavorited(favorites: set<Favorite>, user: Id, destinationId: Id)
  {
    Favorite(user, destinationId) in favorites
  }

  /** `toggle`'s write: the pair is removed if present and added otherwise. */
  function Flipped(favorites: set<Favorite>, user: Id, destinationId: Id): set<Favorite>
  {
    var f := Favorite(user, destinationId);
    if f in favorites then favorites - {f} else favorites + {f}
  }

  /**
   * `toggle($destinationId)`: 404 for an unknown destination; otherwise the
   * pair flips and the reply says whether it is now a favourite.
   */
  method Toggle(db: Database, user: Id, destinationId: Id) returns (r: Result<bool>)
    modifies db`favorites
    ensures !Has(db.destinations, destinationId) ==> r == Failure(NotFound) && db.favorites == old(db.favorites)
    ensures Has(db.destinations, destinationId) ==>
      && db.favorites == Flipped(old(db.favorites), user, destinationId)
      && r == Success(!IsFavorited(old(db.favorites), user, destinationId))
  {
    if !Has(db.destinations, destinationId) {
      return Failure(NotFound);
    }
    var f := Favorite(user, destinationId);
    if f in db.favorites {
      db.favorites := db.favorites - {f};
      r := Success(false);
    } else {
      db.favorites := db.favorites + {f};
      r := Success(true);
    }
  }

  // ---------------------------------------------------------------------------
  // What the toggle promises.

  /** The reply `is_favorited` is what `isFavorited` answers right afterwards. */
  lemma ReplyMatchesMembership(favorites: set<Favorite>, user: Id, destinationId: Id)
    ensures IsFavorited(Flipped(favorites, user, destinationId), user, destinationId)
      <==> !IsFavorited(favorites, user, destinationId)
  {
  }

  /** Toggling twice restores the favourites. */
  lemma ToggleTwiceRestores(favorites: set<Favorite>, user: Id, destinationId: Id)
    ensures Flipped(Flipped(favorites, user, destinationId), user, destinationId) == favorites
  {
  }

  /** Every other pair — another user's, or this user's other destinations — is untouched. */
  lemma OtherPairsUntouched(favorites: set<Favorite>, user: Id, destinationId: Id)
    ensures forall f :: f != Favorite(user, destinationId) ==>
      (f in Flipped(favorites, user, destinationId) <==> f in favorites)
  {
  }
}
