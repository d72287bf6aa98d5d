/** The earlier, unowned photo endpoints in the root package: plain CRUD on the
    photo table with no owner, no ownership checks and no upload validation.
    Its own Photo class is not part of this model; its rows are modelled as
    rows of the same photo table, carrying no owner and no gallery. */
module LegacyPhotoController {
  import opened Wrappers
  import opened Entities
  import opened Store
  import opened Dtos
  import opened GalleryRepository
  import opened PhotoRepository
  import PhotoService
  import PhotoController

  /** The ids of all stored photos below `bound`, ascending. */
  function AllPhotoIds(photos: map<nat, Photo>, bound: nat): (ids: seq<nat>)
    ensures forall i :: 0 <= i < |ids| ==> ids[i] in photos && ids[i] < bound
    ensures forall k :: 0 <= k < bound && k in photos ==> k in ids
    ensures forall i, j :: 0 <= i < j < |ids| ==> ids[i] < ids[j]
  {
    if bound == 0 then []
    else
      var x: nat := bound - 1;
      var before := AllPhotoIds(photos, x);
      NextIds(photos, before, x);
      if x in photos then before + [x] else before
  }

  /** Taking in the next id keeps the ids the stored ones below it, ascending. */
  lemma NextIds(photos: map<nat, Photo>, ids: seq<nat>, x: nat)
    requires forall i :: 0 <= i < |ids| ==> ids[i] in photos && ids[i] < x
    requires forall k :: 0 <= k < x && k in photos ==> k in ids
    requires forall i, j :: 0 <= i < j < |ids| ==> ids[i] < ids[j]
    ensures var r := if x in photos then ids + [x] else ids;
            && (forall i :: 0 <= i < |r| ==> r[i] in photos && r[i] < x + 1)
            && (forall k :: 0 <= k < x + 1 && k in photos ==> k in r)
            && (forall i, j :: 0 <= i < j < |r| ==> r[i] < r[j])
  {
  }

  /** list (findAll): every stored photo once, here by ascending id. */
  function List(t: Tables): (r: seq<Photo>)
    requires TablesValid(t)
    ensures forall i :: 0 <= i < |r| ==> r[i].id in t.photos && t.photos[r[i].id] == r[i]
    ensures forall k :: k in t.photos ==> t.photos[k] in r
    ensures forall i, j :: 0 <= i < j < |r| ==> r[i].id < r[j].id
  {
    var ids := AllPhotoIds(t.photos, t.nextPhotoId);
    var r := Lookup(t.photos, ids);
    assert forall k :: k in t.photos ==> t.photos[k] in r by {
      forall k | k in t.photos ensures t.photos[k] in r {
        var i :| 0 <= i < |ids| && ids[i] == k;
        assert r[i] == t.photos[k];
      }
    }
    r
  }

  /** get: the stored photo itself, or NotFound. */
  function Get(photos: map<nat, Photo>, id: nat): (r: Result<Photo>)
    ensures r.Ok? <==> id in photos
    ensures r.Ok? ==> r.value == photos[id]
    ensures r.Err? ==> r.error == NotFound
  {
    FindById(photos, id)
  }

  /** getMetadata: id, title, description, filename, content type and size of
      the stored photo, or NotFound. */
  function GetMetadata(photos: map<nat, Photo>, id: nat): (r: Result<PhotoMetadata>)
    ensures r.Ok? <==> id in photos
    ensures r.Err? ==> r.error == NotFound
    ensures r.Ok? ==> var p := photos[id];
              r.value == PhotoMetadata(p.id, p.title, p.description, p.originalFilename, p.contentType, p.size)
  {
    match FindById(photos, id)
    case Err(e) => Err(e)
    case Ok(p) => Ok(PhotoMetadata(p.id, p.title, p.description, p.originalFilename, p.contentType, p.size))
  }

  /** The record create builds: `new Photo()` and the six setters; no owner. */
  function LegacyPhoto(title: string, description: Option<string>, file: Upload): Photo {
    BlankPhoto().(title := title, description := description, originalFilename := file.originalFilename,
                  contentType := file.contentType, size := Some(file.Size()), data := Some(file.bytes))
  }

  /** The legacy record is the owned one without its owner, so it never meets the
      Photo column constraints (the owner is required). */
  lemma LegacyPhotoIsUnowned(title: string, description: Option<string>, file: Upload, owner: nat)
    ensures LegacyPhoto(title, description, file) == PhotoService.NewPhoto(title, description, file, owner).(owner := None)
    ensures !PhotoInvariant(LegacyPhoto(title, description, file))
  {
  }

  /** create: every upload is stored as it is, whatever its size or type. */
  method Create(db: Database, title: string, description: Option<string>, file: Upload)
    returns (saved: Photo)
    requires db.Valid()
    modifies db
    ensures db.Valid()
    ensures saved.id == old(db.nextPhotoId) && saved.id !in old(db.photos)
    ensures saved.title == title && saved.description == description
    ensures saved.originalFilename == file.originalFilename && saved.contentType == file.contentType
    ensures saved.size == Some(file.Size()) && saved.data == Some(file.bytes)
    ensures saved.owner.None? && saved.gallery.None?
    ensures db.Snapshot() == old(db.Snapshot()).(photos := old(db.photos)[saved.id := saved],
                                                 nextPhotoId := saved.id + 1)
  {
    var photo := BlankPhoto();
    photo := photo.(title := title);
    photo := photo.(description := description);
    photo := photo.(originalFilename := file.originalFilename);
    photo := photo.(contentType := file.contentType);
    photo := photo.(size := Some(file.Size()));
    photo := photo.(data := Some(file.bytes));
    saved := Insert(db, photo);
  }

  /** Replacing a stored photo by its update keeps the store valid: the update
      keeps the id, the owner and the gallery. */
  lemma UpdatedPhotoKeepsValid(t: Tables, id: nat, title: string, description: Option<string>, file: Option<Upload>)
    requires TablesValid(t) && id in t.photos
    ensures TablesValid(t.(photos := t.photos[id := PhotoService.UpdatedPhoto(t.photos[id], title, description, file)]))
  {
    PhotoService.UpdateKeepsIdentity(t.photos[id], title, description, file);
  }

  /** update: NotFound for a missing id; otherwise the new title and
      description, and the file fields of a non-empty file, with no checks. */
  method Update(db: Database, id: nat, title: string, description: Option<string>, file: Option<Upload>)
    returns (r: Result<Photo>)
    requires db.Valid()
    modifies db
    ensures db.Valid()
    ensures r.Ok? <==> id in old(db.photos)
    ensures r.Err? ==> r.error == NotFound && db.Snapshot() == old(db.Snapshot())
    ensures r.Ok? ==>
              && r.value == PhotoService.UpdatedPhoto(old(db.photos)[id], title, description, file)
              && db.Snapshot() == old(db.Snapshot()).(photos := old(db.photos)[id := r.value])
  {
    var found := FindById(db.photos, id);
    if found.Err? {
      return Err(found.error);
    }
    UpdatedPhotoKeepsValid(db.Snapshot(), id, title, description, file);
    var existing := PhotoService.UpdatedPhoto(found.value, title, description, file);
    db.photos := db.photos[id := existing];
    r := Ok(existing);
  }

  /** delete: NotFound when existsById fails, otherwise removes that photo only. */
  method Delete(db: Database, id: nat) returns (r: Status)
    requires db.Valid()
    modifies db
    ensures db.Valid()
    ensures r == Done <==> id in old(db.photos)
    ensures r.Failed? ==> r.error == NotFound && db.Snapshot() == old(db.Snapshot())
    ensures r == Done ==> db.Snapshot() == old(db.Snapshot()).(photos := old(db.photos) - {id})
  {
    if id !in db.photos {
      return Failed(NotFound);
    }
    RemovePhotosKeepsValid(db.Snapshot(), {id});
    db.photos := db.photos - {id};
    r := Done;
  }

  /** download: NotFound for a missing photo and for one whose bytes are absent
      or empty; otherwise the bytes with the same header fallbacks as the
      owner-scoped download. */
  function Download(photos: map<nat, Photo>, id: nat): (r: Result<PhotoController.Attachment>)
    ensures r.Ok? <==> id in photos && photos[id].data.Some? && |photos[id].data.value| > 0
    ensures r.Err? ==> r.error == NotFound
    ensures r.Ok? ==> r.value == PhotoController.AttachmentOf(photos[id], photos[id].data.value)
  {
    match FindById(photos, id)
    case Err(e) => Err(e)
    case Ok(p) =>
      if p.data.None? || |p.data.value| == 0 then Err(NotFound)
      else Ok(PhotoController.AttachmentOf(p, p.data.value))
  }

  /** The two downloads differ on a stored empty image: the legacy one refuses
      it, the photo service hands it out. */
  lemma EmptyImageDownloads(photos: map<nat, Photo>, id: nat)
    requires id in photos && photos[id].data == Some([])
    ensures Download(photos, id) == Err(NotFound)
    ensures PhotoService.GetImageResource(photos, id) == Ok([])
  {
  }
}
