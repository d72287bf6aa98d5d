/** The photo repository operations the services use (findById, existsById,
    findAllById, save, saveAll, deleteById, deleteAll) over the store. */
module PhotoRepository {
  import opened Wrappers
  import opened Entities
  import opened Store
  import opened GalleryRepository

  /** findById (and the user lookup behind getCurrentUser): the stored row,
      or NotFound. */
  function FindById<T>(rows: map<nat, T>, id: nat): (r: Result<T>)
    ensures r.Ok? <==> id in rows
    ensures r.Ok? ==> r.value == rows[id]
    ensures r.Err? ==> r.error == NotFound
  {
    if id in rows then Ok(rows[id]) else Err(NotFound)
  }

  /** findAllById: the requested photos that exist, each once, in request order. */
  function FindAllById(photos: map<nat, Photo>, ids: seq<nat>): (found: seq<nat>)
    ensures forall i :: 0 <= i < |found| ==> found[i] in photos && found[i] in ids
    ensures forall x :: x in ids && x in photos ==> x in found
    ensures Distinct(found)
  {
    if ids == [] then []
    else
      var before := FindAllById(photos, ids[..|ids| - 1]);
      var x := ids[|ids| - 1];
      assert ids == ids[..|ids| - 1] + [x];
      if x in photos && x !in before then before + [x] else before
  }

  /** A new photo whose owner and gallery are stored, saved under the next id,
      keeps the store valid. */
  lemma InsertPhotoKeepsValid(t: Tables, p: Photo)
    requires TablesValid(t)
    requires p.owner.Some? ==> p.owner.value in t.users
    requires p.gallery.None?
    ensures t.nextPhotoId !in t.photos
    ensures TablesValid(t.(photos := t.photos[t.nextPhotoId := p.(id := t.nextPhotoId)], nextPhotoId := t.nextPhotoId + 1))
  {
  }

  /** save of a new photo: stored under the next identity, which it now carries. */
  method Insert(db: Database, p: Photo) returns (saved: Photo)
    requires db.Valid()
    requires p.owner.Some? ==> p.owner.value in db.users
    requires p.gallery.None?
    modifies db
    ensures db.Valid()
    ensures saved == p.(id := old(db.nextPhotoId)) && saved.id !in old(db.photos)
    ensures db.photos == old(db.photos)[saved.id := saved] && db.nextPhotoId == saved.id + 1
    ensures db.users == old(db.users) && db.galleries == old(db.galleries)
    ensures db.nextUserId == old(db.nextUserId) && db.nextGalleryId == old(db.nextGalleryId)
  {
    InsertPhotoKeepsValid(db.Snapshot(), p);
    saved := p.(id := db.nextPhotoId);
    db.photos := db.photos[saved.id := saved];
    db.nextPhotoId := saved.id + 1;
  }

  /** Removing photos never breaks the store's integrity rules. */
  lemma RemovePhotosKeepsValid(t: Tables, gone: set<nat>)
    requires TablesValid(t)
    ensures TablesValid(t.(photos := t.photos - gone))
  {
  }

  /** deleteAll / deleteAllById: removes the listed photos, one by one. */
  method DeleteAll(db: Database, ids: seq<nat>)
    modifies db
    ensures db.Snapshot() == old(db.Snapshot()).(photos := old(db.photos) - Members(ids))
  {
    var i := 0;
    while i < |ids|
      invariant 0 <= i <= |ids|
      invariant db.Snapshot() == old(db.Snapshot()).(photos := db.photos)
      invariant db.photos == old(db.photos) - Members(ids[..i])
    {
      db.photos := db.photos - {ids[i]};
      i := i + 1;
      assert Members(ids[..i]) == Members(ids[..i - 1]) + {ids[i - 1]} by {
        assert ids[..i] == ids[..i - 1] + [ids[i - 1]];
      }
    }
    assert ids[..i] == ids;
  }

  /** setGallery on each listed photo, then saveAll: the listed photos that
      exist now point at `target`; nothing else changes. */
  method SetGalleryAll(db: Database, ids: seq<nat>, target: Option<nat>)
    modifies db
    ensures db.Snapshot() == old(db.Snapshot()).(photos := map k | k in old(db.photos) ::
              if k in ids then old(db.photos)[k].(gallery := target) else old(db.photos)[k])
  {
    var i := 0;
    while i < |ids|
      invariant 0 <= i <= |ids|
      invariant db.Snapshot() == old(db.Snapshot()).(photos := db.photos)
      invariant db.photos == map k | k in old(db.photos) ::
                  if k in ids[..i] then old(db.photos)[k].(gallery := target) else old(db.photos)[k]
    {
      if ids[i] in db.photos {
        db.photos := db.photos[ids[i] := db.photos[ids[i]].(gallery := target)];
      }
      i := i + 1;
      assert ids[..i] == ids[..i - 1] + [ids[i - 1]];
    }
    assert ids[..i] == ids;
  }
}
