/**
 * A trip's journal: entries with uploaded images kept in a `position` order.
 * Every action is gated on trip ownership; the actions on one entry also
 * require the entry to belong to the trip. New images are numbered from 0
 * when an entry is created and from one past the current maximum when added
 * later; a reorder writes each listed image's index into its position.
 */
module JournalController {
  import opened Common
  import opened Table
  import opened Schema
  import opened Sorting
  import opened Relations

  /** An uploaded file: the path storage assigned it, its client name, and what `image|max:4096` inspects. */
  datatype Upload = Upload(path: string, originalName: string, isImage: bool, kilobytes: int)

  /** The entry form; `None` is a missing or empty field. */
  datatype EntryForm = EntryForm(entryDate: Option<int>, title: Option<string>, body: Option<string>, images: seq<Upload>)

  /** An entry with its images, as `index` hands it to the page. */
  datatype EntryView = EntryView(entry: Row<JournalEntry>, images: seq<Row<JournalImage>>)

  /** `images.*: image|max:4096`. */
  predicate ValidUploads(uploads: seq<Upload>)
  {
    forall k :: 0 <= k < |uploads| ==> uploads[k].isImage && uploads[k].kilobytes <= 4096
  }

  /** `update` additionally makes the body `required`. */
  predicate ValidUpdate(f: EntryForm)
  {
    ValidEntryFields(f) && f.body.Some? && Required(f.body.value)
  }

  /** The rules `store` and `update` share: `title: nullable|max:160`, `body: max:500000`, the images. */
  predicate ValidEntryFields(f: EntryForm)
  {
    OptionalAtMost(f.title, 160) && OptionalAtMost(f.body, 500000) && ValidUploads(f.images)
  }

  /**
   * The checks on an action addressed to one entry: the bound trip and entry
   * exist (404), the trip is the user's (403), the entry is the trip's (404).
   */
  function EntryGate(trips: seq<Row<Trip>>, entries: seq<Row<JournalEntry>>, user: Option<Id>, tripId: Id, entryId: Id)
    : (r: Outcome)
    ensures r == Ok <==> (
      && OwnerGate(trips, user, tripId) == Ok
      && Lookup(entries, entryId).Some?
      && Lookup(entries, entryId).value.tripId == tripId)
    ensures r == Fail(Forbidden) <==> OwnerGate(trips, user, tripId) == Fail(Forbidden) && Has(entries, entryId)
    ensures r != Ok && r != Fail(Forbidden) ==> r == Fail(NotFound)
  {
    match Lookup(entries, entryId)
    case None => Fail(NotFound)
    case Some(e) =>
      var gate := OwnerGate(trips, user, tripId);
      if gate != Ok then gate
      else if e.tripId != tripId then Fail(NotFound)
      else Ok
  }

  /** The rows the image loop creates: consecutive keys from `firstId`, positions from `base`, in upload order. */
  function Attach(entryId: Id, firstId: Id, uploads: seq<Upload>, base: int): (r: seq<Row<JournalImage>>)
  {
    seq(|uploads|, k requires 0 <= k < |uploads| =>
      Row(firstId + k, JournalImage(entryId, uploads[k].path, base + k, uploads[k].originalName)))
  }

  /** `(int) $entry->images()->max('position')`: the largest position, or 0 when the entry has no image. */
  function MaxPosition(images: seq<Row<JournalImage>>, entryId: Id): (m: int)
    ensures forall x :: x in images && x.val.entryId == entryId ==> x.val.position <= m
    ensures (exists x :: x in images && x.val.entryId == entryId) ==>
      exists x :: x in images && x.val.entryId == entryId && x.val.position == m
    ensures (forall x :: x in images ==> x.val.entryId != entryId) ==> m == 0
  {
    match MaxOf(images, entryId)
    case None => 0
    case Some(m) => m
  }

  function MaxOf(images: seq<Row<JournalImage>>, entryId: Id): (m: Option<int>)
    ensures m.None? <==> forall x :: x in images ==> x.val.entryId != entryId
    ensures m.Some? ==> forall x :: x in images && x.val.entryId == entryId ==> x.val.position <= m.value
    ensures m.Some? ==> exists x :: x in images && x.val.entryId == entryId && x.val.position == m.value
  {
    if images == [] then None
    else
      assert forall x :: x in images <==> x == images[0] || x in images[1..];
      var rest := MaxOf(images[1..], entryId);
      if images[0].val.entryId != entryId then rest
      else if rest.None? || rest.value < images[0].val.position then Some(images[0].val.position)
      else rest
  }

  // ---------------------------------------------------------------------------
  // The actions.

  /** The `foreach` over the uploaded files: one image row per file, in order. */
  method AttachImages(db: Database, entryId: Id, uploads: seq<Upload>, base: int) returns (created: seq<Row<JournalImage>>)
    requires db.Valid()
    modifies db`images, db`nextId
    ensures db.Valid()
    ensures created == Attach(entryId, old(db.nextId), uploads, base)
    ensures db.images == old(db.images) + created
    ensures db.nextId == old(db.nextId) + |uploads|
  {
    created := [];
    var i := 0;
    while i < |uploads|
      invariant 0 <= i <= |uploads|
      invariant db.Valid()
      invariant db.nextId == old(db.nextId) + i
      invariant created == Attach(entryId, old(db.nextId), uploads[..i], base)
      invariant db.images == old(db.images) + created
    {
      var image := JournalImage(entryId, uploads[i].path, base + i, uploads[i].originalName);
      BelowExtend(db.images, db.nextId, image);
      db.images := db.images + [Row(db.nextId, image)];
      created := created + [Row(db.nextId, image)];
      db.nextId := db.nextId + 1;
      i := i + 1;
    }
    assert uploads[..i] == uploads;
  }

  /**
   * `store`: a new entry, then its images at positions 0..n-1. A missing body
   * passes validation (`nullable`) but the `body` column is NOT NULL, so the
   * insert fails with a server error and nothing is written.
   */
  method StoreEntry(db: Database, user: Option<Id>, tripId: Id, form: EntryForm, now: int) returns (r: Outcome)
    requires db.Valid()
    modifies db`entries, db`images, db`nextId
    ensures db.Valid()
    ensures OwnerGate(db.trips, user, tripId) != Ok ==> r == OwnerGate(db.trips, user, tripId) && unchanged(db)
    ensures OwnerGate(db.trips, user, tripId) == Ok && !ValidEntryFields(form) ==> r == Fail(ValidationFailed) && unchanged(db)
    ensures OwnerGate(db.trips, user, tripId) == Ok && ValidEntryFields(form) && form.body.None? ==>
      r == Fail(ServerError) && unchanged(db)
    ensures OwnerGate(db.trips, user, tripId) == Ok && ValidEntryFields(form) && form.body.Some? ==>
      && r == Ok && user.Some?
      && db.entries == old(db.entries) + [Row(old(db.nextId), JournalEntry(tripId, user.value, form.entryDate, form.title, form.body.value, now))]
      && db.images == old(db.images) + Attach(old(db.nextId), old(db.nextId) + 1, form.images, 0)
  {
    r := OwnerGate(db.trips, user, tripId);
    if r != Ok {
      return;
    }
    if !ValidEntryFields(form) {
      return Fail(ValidationFailed);
    }
    if form.body.None? {
      return Fail(ServerError);
    }
    var entryId := db.nextId;
    var entry := JournalEntry(tripId, user.value, form.entryDate, form.title, form.body.value, now);
    BelowExtend(db.entries, db.nextId, entry);
    db.entries := db.entries + [Row(entryId, entry)];
    db.nextId := db.nextId + 1;
    if |form.images| > 0 {
      var _ := AttachImages(db, entryId, form.images, 0);
    }
  }

  /** `update`: replaces date, title and body, then appends any new images after the current maximum. */
  method UpdateEntry(db: Database, user: Option<Id>, tripId: Id, entryId: Id, form: EntryForm) returns (r: Outcome)
    requires db.Valid()
    modifies db`entries, db`images, db`nextId
    ensures db.Valid()
    ensures EntryGate(db.trips, old(db.entries), user, tripId, entryId) != Ok ==>
      r == EntryGate(db.trips, old(db.entries), user, tripId, entryId) && unchanged(db)
    ensures EntryGate(db.trips, old(db.entries), user, tripId, entryId) == Ok && !ValidUpdate(form) ==>
      r == Fail(ValidationFailed) && unchanged(db)
    ensures EntryGate(db.trips, old(db.entries), user, tripId, entryId) == Ok && ValidUpdate(form) ==>
      && r == Ok
      && db.entries == Edited(old(db.entries), entryId, form)
      && db.images == old(db.images) + Attach(entryId, old(db.nextId), form.images, MaxPosition(old(db.images), entryId) + 1)
  {
    r := EntryGate(db.trips, db.entries, user, tripId, entryId);
    if r != Ok {
      return;
    }
    if !ValidUpdate(form) {
      return Fail(ValidationFailed);
    }
    EditEntry(db, entryId, form);
    // Without uploads the attach loop adds nothing, as skipping it on `hasFile` does.
    var _ := AttachImages(db, entryId, form.images, MaxPosition(db.images, entryId) + 1);
  }

  /** The entries with date, title and body of one replaced by the form's. */
  function Edited(entries: seq<Row<JournalEntry>>, entryId: Id, form: EntryForm): seq<Row<JournalEntry>>
    requires Has(entries, entryId) && form.body.Some?
  {
    Set(entries, entryId, Lookup(entries, entryId).value.(entryDate := form.entryDate, title := form.title, body := form.body.value))
  }

  /** The entry's `update` of date, title and body. */
  method EditEntry(db: Database, entryId: Id, form: EntryForm)
    requires db.Valid() && Has(db.entries, entryId) && form.body.Some?
    modifies db`entries
    ensures db.Valid()
    ensures db.entries == Edited(old(db.entries), entryId, form)
  {
    SetKeyed(db.entries, entryId, Lookup(db.entries, entryId).value.(entryDate := form.entryDate, title := form.title, body := form.body.value));
    db.entries := Edited(db.entries, entryId, form);
  }

  /** `uploadImages`: at least one image, appended after the current maximum; answers with the created rows. */
  method UploadImages(db: Database, user: Option<Id>, tripId: Id, entryId: Id, uploads: seq<Upload>)
    returns (r: Result<seq<Row<JournalImage>>>)
    requires db.Valid()
    modifies db`images, db`nextId
    ensures db.Valid()
    ensures EntryGate(db.trips, db.entries, user, tripId, entryId) != Ok ==>
      r == Failure(EntryGate(db.trips, db.entries, user, tripId, entryId).error) && unchanged(db)
    ensures EntryGate(db.trips, db.entries, user, tripId, entryId) == Ok && !(uploads != [] && ValidUploads(uploads)) ==>
      r == Failure(ValidationFailed) && unchanged(db)
    ensures EntryGate(db.trips, db.entries, user, tripId, entryId) == Ok && uploads != [] && ValidUploads(uploads) ==>
      && r == Success(Attach(entryId, old(db.nextId), uploads, MaxPosition(old(db.images), entryId) + 1))
      && db.images == old(db.images) + r.value
  {
    var gate := EntryGate(db.trips, db.entries, user, tripId, entryId);
    if gate != Ok {
      return Failure(gate.error);
    }
    if !(uploads != [] && ValidUploads(uploads)) {
      return Failure(ValidationFailed);
    }
    var maxPos := MaxPosition(db.images, entryId);
    var created := AttachImages(db, entryId, uploads, maxPos + 1);
    r := Success(created);
  }

  /** `destroy`: the entry goes, and with it (by the foreign key's cascade) its images. */
  method DestroyEntry(db: Database, user: Option<Id>, tripId: Id, entryId: Id) returns (r: Outcome)
    requires db.Valid()
    modifies db`entries, db`images
    ensures db.Valid()
    ensures r == EntryGate(db.trips, old(db.entries), user, tripId, entryId)
    ensures r != Ok ==> unchanged(db)
    ensures r == Ok ==> db.entries == Delete(old(db.entries), entryId)
    ensures r == Ok ==> db.images == Where(old(db.images), (i: JournalImage) => !ImageOfEntry(i, entryId))
  {
    r := EntryGate(db.trips, db.entries, user, tripId, entryId);
    if r == Ok {
      DeleteFresh(db.entries, entryId, db.nextId);
      WhereFresh(db.images, (i: JournalImage) => !ImageOfEntry(i, entryId), db.nextId);
      db.entries := Delete(db.entries, entryId);
      db.images := Where(db.images, (i: JournalImage) => !ImageOfEntry(i, entryId));
    }
  }

  /** The checks of `deleteImage`: the entry gate, then the image must exist and be the entry's (404). */
  function ImageGate(
    trips: seq<Row<Trip>>, entries: seq<Row<JournalEntry>>, images: seq<Row<JournalImage>>,
    user: Option<Id>, tripId: Id, entryId: Id, imageId: Id): (r: Outcome)
    ensures r == Ok <==> (
      && EntryGate(trips, entries, user, tripId, entryId) == Ok
      && Lookup(images, imageId).Some?
      && Lookup(images, imageId).value.entryId == entryId)
    ensures !Has(images, imageId) ==> r == Fail(NotFound)
  {
    match Lookup(images, imageId)
    case None => Fail(NotFound)
    case Some(img) =>
      var gate := EntryGate(trips, entries, user, tripId, entryId);
      if gate != Ok then gate
      else if img.entryId != entryId then Fail(NotFound)
      else Ok
  }

  /** `deleteImage`: removes that one image row. */
  method DeleteImage(db: Database, user: Option<Id>, tripId: Id, entryId: Id, imageId: Id) returns (r: Outcome)
    requires db.Valid()
    modifies db`images
    ensures db.Valid()
    ensures r == ImageGate(db.trips, db.entries, old(db.images), user, tripId, entryId, imageId)
    ensures r != Ok ==> db.images == old(db.images)
    ensures r == Ok ==> db.images == Delete(old(db.images), imageId)
  {
    r := ImageGate(db.trips, db.entries, db.images, user, tripId, entryId, imageId);
    if r == Ok {
      DeleteFresh(db.images, imageId, db.nextId);
      db.images := Delete(db.images, imageId);
    }
  }

  // ---------------------------------------------------------------------------
  // Reordering.

  predicate Distinct(ids: seq<int>)
  {
    forall i, j :: 0 <= i < j < |ids| ==> ids[i] != ids[j]
  }

  /** An image row keyed `id` belongs to the entry. */
  predicate IsImageOf(images: seq<Row<JournalImage>>, id: int, entryId: Id)
  {
    exists i :: 0 <= i < |images| && images[i].id == id && images[i].val.entryId == entryId
  }

  /** `$entry->images()->whereIn('id', $ids)->count()`. */
  function OwnedAmong(images: seq<Row<JournalImage>>, entryId: Id, ids: seq<int>): (n: nat)
    ensures n <= |images|
  {
    if images == [] then 0
    else
      var here := if images[0].val.entryId == entryId && images[0].id as int in ids then 1 else 0;
      here + OwnedAmong(images[1..], entryId, ids)
  }

  /** The index of the last occurrence of `x`. */
  function LastIndex(s: seq<int>, x: int): (k: nat)
    requires x in s
    ensures k < |s| && s[k] == x
    ensures forall j :: k < j < |s| ==> s[j] != x
  {
    if s[|s| - 1] == x then |s| - 1
    else
      assert x in s[..|s| - 1] by {
        var j :| 0 <= j < |s| && s[j] == x;
        assert s[..|s| - 1][j] == x;
      }
      LastIndex(s[..|s| - 1], x)
  }

  /** `where('id', $id)->where('trip_journal_entry_id', $entry->id)->update(['position' => $pos])`. */
  function SetPosition(images: seq<Row<JournalImage>>, id: int, entryId: Id, pos: int): seq<Row<JournalImage>>
  {
    seq(|images|, i requires 0 <= i < |images| =>
      if images[i].id == id && images[i].val.entryId == entryId
      then Row(images[i].id, images[i].val.(position := pos))
      else images[i])
  }

  /**
   * The state after the whole reorder loop: each of the entry's images that
   * is listed takes the index of its last occurrence; everything else stays.
   */
  function Reordered(images: seq<Row<JournalImage>>, entryId: Id, ids: seq<int>): seq<Row<JournalImage>>
  {
    seq(|images|, i requires 0 <= i < |images| =>
      if images[i].val.entryId == entryId && images[i].id as int in ids
      then Row(images[i].id, images[i].val.(position := LastIndex(ids, images[i].id)))
      else images[i])
  }

  /** `reorderImages`. */
  method ReorderImages(db: Database, user: Option<Id>, tripId: Id, entryId: Id, ids: seq<int>) returns (r: Outcome)
    requires db.Valid()
    modifies db`images
    ensures db.Valid()
    ensures EntryGate(db.trips, db.entries, user, tripId, entryId) != Ok ==>
      r == EntryGate(db.trips, db.entries, user, tripId, entryId) && db.images == old(db.images)
    ensures EntryGate(db.trips, db.entries, user, tripId, entryId) == Ok && ids == [] ==>
      r == Fail(ValidationFailed) && db.images == old(db.images)
    ensures EntryGate(db.trips, db.entries, user, tripId, entryId) == Ok && ids != [] ==>
      if OwnedAmong(old(db.images), entryId, ids) == |ids|
      then r == Ok && db.images == Reordered(old(db.images), entryId, ids)
      else r == Fail(Unprocessable) && db.images == old(db.images)
  {
    r := EntryGate(db.trips, db.entries, user, tripId, entryId);
    if r != Ok {
      return;
    }
    if ids == [] {
      return Fail(ValidationFailed);
    }
    if OwnedAmong(db.images, entryId, ids) != |ids| {
      return Fail(Unprocessable);
    }
    ghost var before := db.images;
    var pos := 0;
    while pos < |ids|
      invariant 0 <= pos <= |ids|
      invariant db.images == Reordered(before, entryId, ids[..pos])
      invariant db.Valid()
    {
      ReorderStep(before, entryId, ids, pos);
      db.images := SetPosition(db.images, ids[pos], entryId, pos);
      pos := pos + 1;
    }
    assert ids[..pos] == ids;
  }

  /** Each entry paired with its images, in the entries' order. */
  function Views(sorted: seq<Row<JournalEntry>>, images: seq<Row<JournalImage>>): (r: seq<EntryView>)
    ensures |r| == |sorted|
    ensures forall k :: 0 <= k < |r| ==> r[k].entry == sorted[k] && r[k].images == ImagesOf(images, sorted[k].id)
    ensures forall x :: (exists k :: 0 <= k < |r| && r[k].entry == x) <==> x in sorted
  {
    var views := seq(|sorted|, k requires 0 <= k < |sorted| => EntryView(sorted[k], ImagesOf(images, sorted[k].id)));
    assert forall x :: (exists k :: 0 <= k < |views| && views[k].entry == x) <==> x in sorted by {
      forall x ensures (exists k :: 0 <= k < |views| && views[k].entry == x) <==> x in sorted {
        if x in sorted {
          var k :| 0 <= k < |sorted| && sorted[k] == x;
          assert views[k].entry == x;
        }
      }
    }
    views
  }

  lemma SortedMembers<T>(sorted: seq<T>, s: seq<T>)
    requires multiset(sorted) == multiset(s)
    ensures forall x :: x in sorted <==> x in s
  {
    forall x ensures x in sorted <==> x in s {
      SameElements(sorted, s, x);
    }
  }

  /** `index`: the trip's entries newest first, each with its images in position order. */
  function Index(trips: seq<Row<Trip>>, entries: seq<Row<JournalEntry>>, images: seq<Row<JournalImage>>, user: Option<Id>, tripId: Id)
    : (r: Result<seq<EntryView>>)
    ensures r.Failure? <==> OwnerGate(trips, user, tripId) != Ok
    ensures r.Failure? ==> r.error == OwnerGate(trips, user, tripId).error
    ensures r.Success? ==> forall x ::
      (exists k :: 0 <= k < |r.value| && r.value[k].entry == x) <==> x in entries && x.val.tripId == tripId
    ensures r.Success? ==> forall j, k :: 0 <= j < k < |r.value| ==>
      r.value[j].entry.val.createdAt >= r.value[k].entry.val.createdAt
    ensures r.Success? ==> forall k :: 0 <= k < |r.value| ==>
      SortedBy(r.value[k].images, PositionLe)
      && multiset(r.value[k].images) == multiset(Where(images, (i: JournalImage) => ImageOfEntry(i, r.value[k].entry.id)))
  {
    var gate := OwnerGate(trips, user, tripId);
    if gate != Ok then Failure(gate.error)
    else
      EntryOrder();
      var mine := Where(entries, (e: JournalEntry) => e.tripId == tripId);
      var sorted := Sort(mine, EntryNewerOrSame);
      SortedMembers(sorted, mine);
      var views := Views(sorted, images);
      Success(views)
  }

  /**
   * `index` as the repository has it: the trip model declares no
   * `journalEntries` relation, so once the owner check passes the call falls
   * through to the query builder, which throws.
   */
  function IndexAsWritten(trips: seq<Row<Trip>>, user: Option<Id>, tripId: Id): (r: Result<seq<EntryView>>)
    ensures OwnerGate(trips, user, tripId) != Ok ==> r == Failure(OwnerGate(trips, user, tripId).error)
    ensures OwnerGate(trips, user, tripId) == Ok ==> r == Failure(ServerError)
  {
    var gate := OwnerGate(trips, user, tripId);
    if gate != Ok then Failure(gate.error) else Failure(ServerError)
  }

  /** The owner, the one caller the gate admits, never sees the journal as written; `Index` shows it. */
  lemma OwnerIndexThrows(
    trips: seq<Row<Trip>>, entries: seq<Row<JournalEntry>>, images: seq<Row<JournalImage>>, user: Option<Id>, tripId: Id)
    requires OwnerGate(trips, user, tripId) == Ok
    ensures IndexAsWritten(trips, user, tripId) == Failure(ServerError)
    ensures Index(trips, entries, images, user, tripId).Success?
  {
  }

  // ---------------------------------------------------------------------------
  // What positions promise.

  /** `store` numbers the new images 0..n-1 in upload order, under consecutive fresh keys. */
  lemma StoredPositionsFromZero(entryId: Id, firstId: Id, uploads: seq<Upload>)
    ensures |Attach(entryId, firstId, uploads, 0)| == |uploads|
    ensures forall k :: 0 <= k < |uploads| ==>
      var x := Attach(entryId, firstId, uploads, 0)[k];
      x.val.position == k && x.id == firstId + k && x.val.entryId == entryId
      && x.val.path == uploads[k].path && x.val.originalName == uploads[k].originalName
  {
  }

  /**
   * Images added after creation go strictly after every image the entry
   * already has, and keep their upload order among themselves.
   */
  lemma AppendedAfterExisting(images: seq<Row<JournalImage>>, entryId: Id, firstId: Id, uploads: seq<Upload>, base: int)
    requires base == MaxPosition(images, entryId) + 1
    ensures forall x, k :: x in images && x.val.entryId == entryId && 0 <= k < |uploads| ==>
      x.val.position < Attach(entryId, firstId, uploads, base)[k].val.position
    ensures forall j, k :: 0 <= j < k < |uploads| ==>
      Attach(entryId, firstId, uploads, base)[j].val.position < Attach(entryId, firstId, uploads, base)[k].val.position
  {
  }

  /** An entry with no images yet gets positions starting at 1, not 0. */
  lemma FirstAppendStartsAtOne(images: seq<Row<JournalImage>>, entryId: Id, firstId: Id, uploads: seq<Upload>)
    requires forall x :: x in images ==> x.val.entryId != entryId
    requires uploads != []
    ensures Attach(entryId, firstId, uploads, MaxPosition(images, entryId) + 1)[0].val.position == 1
  {
  }

  lemma {:induction false} OwnedAmongCard(images: seq<Row<JournalImage>>, entryId: Id, ids: seq<int>)
    requires Keyed(images)
    ensures OwnedAmong(images, entryId, ids) == |OwnedIds(images, entryId, ids)|
  {
    if images == [] {
      assert OwnedIds(images, entryId, ids) == {};
    } else {
      var head := images[0];
      var tail := images[1..];
      assert Keyed(tail);
      OwnedAmongCard(tail, entryId, ids);
      assert forall x :: x in images <==> x == head || x in tail;
      assert head.id as int !in OwnedIds(tail, entryId, ids) by {
        forall x | x in tail ensures x.id != head.id {
          var k :| 0 <= k < |tail| && tail[k] == x;
          assert images[k + 1] == x;
        }
      }
      if head.val.entryId == entryId && head.id as int in ids {
        assert OwnedIds(images, entryId, ids) == OwnedIds(tail, entryId, ids) + {head.id as int};
      } else {
        assert OwnedIds(images, entryId, ids) == OwnedIds(tail, entryId, ids);
      }
    }
  }

  /** The keys of the entry's images that are listed. */
  function OwnedIds(images: seq<Row<JournalImage>>, entryId: Id, ids: seq<int>): set<int>
  {
    set x | x in images && x.val.entryId == entryId && x.id as int in ids :: x.id as int
  }

  function Elements(ids: seq<int>): set<int>
  {
    set x | x in ids
  }

  lemma {:induction false} ElementsCard(ids: seq<int>)
    ensures |Elements(ids)| <= |ids|
    ensures |Elements(ids)| == |ids| <==> Distinct(ids)
  {
    if ids != [] {
      var tail := ids[1..];
      ElementsCard(tail);
      assert Elements(ids) == {ids[0]} + Elements(tail) by {
        assert forall x :: x in ids <==> x == ids[0] || x in tail;
      }
      if ids[0] in tail {
        var j :| 0 <= j < |tail| && tail[j] == ids[0];
        assert ids[j + 1] == ids[0];
        assert Elements(ids) == Elements(tail);
      } else {
        assert Distinct(ids) <==> Distinct(tail) by {
          if Distinct(tail) {
            forall i, j | 0 <= i < j < |ids| ensures ids[i] != ids[j] {
              if i > 0 {
                assert ids[i] == tail[i - 1] && ids[j] == tail[j - 1];
              } else {
                assert ids[j] == tail[j - 1];
              }
            }
          }
          if Distinct(ids) {
            forall i, j | 0 <= i < j < |tail| ensures tail[i] != tail[j] {
              assert tail[i] == ids[i + 1] && tail[j] == ids[j + 1];
            }
          }
        }
      }
    }
  }

  lemma SubsetCard(a: set<int>, b: set<int>)
    requires a <= b
    ensures |a| <= |b|
    ensures |a| == |b| ==> a == b
  {
    assert b == a + (b - a);
    assert a * (b - a) == {};
    if |a| == |b| {
      assert |b - a| == 0;
    }
  }

  /**
   * The reorder guard in the terms the code's comment uses: the count of the
   * entry's listed images equals the list length exactly when the list has no
   * duplicate and every listed id is an image of the entry. A proper subset
   * of the entry's images therefore passes.
   */
  lemma ReorderAcceptedIff(images: seq<Row<JournalImage>>, entryId: Id, ids: seq<int>)
    requires Keyed(images)
    ensures OwnedAmong(images, entryId, ids) == |ids| <==>
      Distinct(ids) && forall k :: 0 <= k < |ids| ==> IsImageOf(images, ids[k], entryId)
  {
    var a := OwnedIds(images, entryId, ids);
    var b := Elements(ids);
    OwnedAmongCard(images, entryId, ids);
    ElementsCard(ids);
    SubsetCard(a, b);
    if Distinct(ids) && forall k :: 0 <= k < |ids| ==> IsImageOf(images, ids[k], entryId) {
      forall x | x in b ensures x in a {
        var k :| 0 <= k < |ids| && ids[k] == x;
        var i :| 0 <= i < |images| && images[i].id == ids[k] && images[i].val.entryId == entryId;
        assert images[i] in images;
      }
      assert a == b;
    }
    if OwnedAmong(images, entryId, ids) == |ids| {
      assert a == b;
      forall k | 0 <= k < |ids| ensures IsImageOf(images, ids[k], entryId) {
        assert ids[k] in b;
        var x :| x in images && x.val.entryId == entryId && x.id as int in ids && x.id as int == ids[k];
        var i :| 0 <= i < |images| && images[i] == x;
      }
    }
  }

  lemma ReorderStep(images: seq<Row<JournalImage>>, entryId: Id, ids: seq<int>, pos: nat)
    requires pos < |ids|
    ensures SetPosition(Reordered(images, entryId, ids[..pos]), ids[pos], entryId, pos)
      == Reordered(images, entryId, ids[..pos + 1])
  {
    var prefix := ids[..pos + 1];
    assert prefix[..pos] == ids[..pos];
    assert forall x :: x in prefix <==> x == ids[pos] || x in ids[..pos];
  }

  /** With distinct ids, the image `ids[k]` ends at position k. */
  lemma ReorderPlacesEach(images: seq<Row<JournalImage>>, entryId: Id, ids: seq<int>, i: nat, k: nat)
    requires Distinct(ids)
    requires i < |images| && k < |ids|
    requires images[i].id == ids[k] && images[i].val.entryId == entryId
    ensures Reordered(images, entryId, ids)[i].val.position == k
    ensures Reordered(images, entryId, ids)[i].val.(position := 0) == images[i].val.(position := 0)
  {
    var j := LastIndex(ids, ids[k]);
    assert j == k;
  }

  /** Images of other entries and images left out of the list keep their positions. */
  lemma ReorderKeepsUnlisted(images: seq<Row<JournalImage>>, entryId: Id, ids: seq<int>, i: nat)
    requires i < |images|
    requires images[i].val.entryId != entryId || images[i].id as int !in ids
    ensures Reordered(images, entryId, ids)[i] == images[i]
  {
  }

  /** A list naming only some of the entry's images passes the guard (the code does not ask for all of them). */
  lemma ProperSubsetAccepted()
    ensures OwnedAmong([Row(1, JournalImage(7, "a.jpg", 0, "a.jpg")), Row(2, JournalImage(7, "b.jpg", 1, "b.jpg"))], 7, [2]) == 1
    ensures Reordered([Row(1, JournalImage(7, "a.jpg", 0, "a.jpg")), Row(2, JournalImage(7, "b.jpg", 1, "b.jpg"))], 7, [2])
      == [Row(1, JournalImage(7, "a.jpg", 0, "a.jpg")), Row(2, JournalImage(7, "b.jpg", 0, "b.jpg"))]
  {
    var t := [Row(1, JournalImage(7, "a.jpg", 0, "a.jpg")), Row(2, JournalImage(7, "b.jpg", 1, "b.jpg"))];
    assert t[1..][1..] == [];
    assert LastIndex([2], 2) == 0;
  }
}
