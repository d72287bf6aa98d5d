/** The owner-scoped photo endpoints (/api/photos): every single-photo request
    first loads the photo and compares its owner with the authenticated
    principal, then delegates to the photo service. `principal` is the id of the
    authenticated user; unauthenticated requests never reach these handlers. */
module PhotoController {
  import opened Wrappers
  import opened Entities
  import opened Text
  import opened Store
  import opened Dtos
  import Paging
  import opened GalleryRepository
  import opened PhotoRepository
  import PhotoService

  /** The ownership gate: a missing photo is NotFound (findById throws first), a
      photo with no owner makes `photo.getUser().getId()` throw (Internal), and a
      photo of another user is refused with 403. */
  function OwnedPhoto(photos: map<nat, Photo>, id: nat, principal: nat): (r: Result<Photo>)
    ensures r.Ok? <==> id in photos && photos[id].owner == Some(principal)
    ensures r.Ok? ==> r.value == photos[id]
    ensures r == Err(NotFound) <==> id !in photos
    ensures r == Err(Internal) <==> id in photos && photos[id].owner.None?
    ensures r == Err(Forbidden) <==> id in photos && photos[id].owner.Some? && photos[id].owner.value != principal
  {
    match FindById(photos, id)
    case Err(e) => Err(e)
    case Ok(p) =>
      match p.owner
      case None => Err(Internal)
      case Some(o) => if o != principal then Err(Forbidden) else Ok(p)
  }

  /** get: the photo as a DTO, only for its owner. */
  function Get(photos: map<nat, Photo>, id: nat, principal: nat): (r: Result<PhotoDto>)
    ensures r.Ok? <==> id in photos && photos[id].owner == Some(principal)
    ensures r.Ok? ==> r.value == PhotoDtoOf(photos[id])
    ensures r.Err? ==> r.error == OwnedPhoto(photos, id, principal).error
  {
    match OwnedPhoto(photos, id, principal)
    case Err(e) => Err(e)
    case Ok(p) => Ok(PhotoDtoOf(p))
  }

  /** getMetadata: the metadata of the photo, only for its owner. */
  function GetMetadata(photos: map<nat, Photo>, id: nat, principal: nat): (r: Result<PhotoMetadata>)
    ensures r.Ok? <==> id in photos && photos[id].owner == Some(principal)
    ensures r.Ok? ==> r == PhotoService.GetMetadata(photos, id)
    ensures r.Err? ==> r.error == OwnedPhoto(photos, id, principal).error
  {
    match OwnedPhoto(photos, id, principal)
    case Err(e) => Err(e)
    case Ok(_) => PhotoService.GetMetadata(photos, id)
  }

  /** create: the principal must have an account (the "User not found" error of
      userService.getCurrentUser is NotFound here); the upload is then created as
      the photo service does, owned by the principal. The requested gallery is
      not passed on: the service's create takes none, so the photo is unfiled. */
  method Create(db: Database, title: string, description: Option<string>, file: Upload,
                galleryId: Option<nat>, principal: nat)
    returns (r: Result<Photo>)
    requires db.Valid()
    modifies db
    ensures db.Valid()
    ensures principal !in old(db.users) ==> r == Err(NotFound) && db.Snapshot() == old(db.Snapshot())
    ensures principal in old(db.users) ==>
              && (r.Err? <==> PhotoService.ValidateUpload(file).Failed?)
              && (r.Err? ==> r.error == PhotoService.ValidateUpload(file).error && db.Snapshot() == old(db.Snapshot()))
    ensures r.Ok? ==>
              && r.value == PhotoService.NewPhoto(title, description, file, principal).(id := old(db.nextPhotoId))
              && r.value.owner == Some(principal) && r.value.gallery.None?
              && db.Snapshot() == old(db.Snapshot()).(photos := old(db.photos)[r.value.id := r.value],
                                                      nextPhotoId := r.value.id + 1)
  {
    var user := FindById(db.users, principal);
    if user.Err? {
      return Err(user.error);
    }
    r := PhotoService.Create(db, title, description, file, principal);
  }

  /** bulkCreate: the principal must have an account; the files are then saved
      as the photo service's bulkCreate does, owned by the principal. The
      requested gallery is not passed on. */
  method BulkCreate(db: Database, files: Option<seq<Upload>>, titles: Option<seq<Option<string>>>,
                    descriptions: Option<seq<Option<string>>>, galleryId: Option<nat>, principal: nat)
    returns (r: Result<seq<Photo>>)
    requires db.Valid()
    modifies db
    ensures db.Valid()
    ensures principal !in old(db.users) ==> r == Err(NotFound) && db.Snapshot() == old(db.Snapshot())
    ensures db.users == old(db.users) && db.galleries == old(db.galleries)
    ensures db.nextUserId == old(db.nextUserId) && db.nextGalleryId == old(db.nextGalleryId)
    ensures principal in old(db.users) && (files.None? || files.value == []) ==>
              r == Err(BadRequest(NoFiles)) && db.Snapshot() == old(db.Snapshot())
    ensures principal in old(db.users) && files.Some? && files.value != [] ==>
              var fs := files.value;
              var k := PhotoService.FirstInvalidUpload(fs);
              && db.photos == PhotoService.SavedInto(old(db.photos),
                                PhotoService.BulkBuilt(fs, titles, descriptions, principal, |fs|), old(db.nextPhotoId), k)
              && db.nextPhotoId == old(db.nextPhotoId) + k
              && (r.Ok? <==> k == |fs|)
              && (r.Err? ==> k < |fs| && r.error == PhotoService.ValidateUpload(fs[k]).error)
    ensures r.Ok? ==>
              && files.Some?
              && r.value == PhotoService.SavedList(PhotoService.BulkBuilt(files.value, titles, descriptions, principal, |files.value|),
                                                   old(db.nextPhotoId), |files.value|)
  {
    var user := FindById(db.users, principal);
    if user.Err? {
      return Err(user.error);
    }
    r := PhotoService.BulkCreate(db, files, titles, descriptions, principal);
  }

  /** update: the ownership gate, then the photo service's update; the requested
      gallery is not passed on. */
  method Update(db: Database, id: nat, title: string, description: Option<string>, file: Option<Upload>,
                galleryId: Option<nat>, principal: nat)
    returns (r: Result<Photo>)
    requires db.Valid()
    modifies db
    ensures db.Valid()
    ensures OwnedPhoto(old(db.photos), id, principal).Err? ==>
              r == Err(OwnedPhoto(old(db.photos), id, principal).error) && db.Snapshot() == old(db.Snapshot())
    ensures OwnedPhoto(old(db.photos), id, principal).Ok? ==>
              && (r.Ok? <==> file.None? || file.value.IsEmpty() || PhotoService.ValidateUpload(file.value) == Done)
              && (r.Err? ==> r.error == PhotoService.ValidateUpload(file.value).error && db.Snapshot() == old(db.Snapshot()))
    ensures r.Ok? ==>
              && r.value == PhotoService.UpdatedPhoto(old(db.photos)[id], title, description, file)
              && db.Snapshot() == old(db.Snapshot()).(photos := old(db.photos)[id := r.value])
  {
    var gate := OwnedPhoto(db.photos, id, principal);
    if gate.Err? {
      return Err(gate.error);
    }
    r := PhotoService.Update(db, id, title, description, file);
  }

  /** delete: the ownership gate, then removal of that photo only. */
  method Delete(db: Database, id: nat, principal: nat) returns (r: Status)
    requires db.Valid()
    modifies db
    ensures db.Valid()
    ensures r == Done <==> OwnedPhoto(old(db.photos), id, principal).Ok?
    ensures r.Failed? ==> r.error == OwnedPhoto(old(db.photos), id, principal).error && db.Snapshot() == old(db.Snapshot())
    ensures r == Done ==> db.Snapshot() == old(db.Snapshot()).(photos := old(db.photos) - {id})
  {
    var gate := OwnedPhoto(db.photos, id, principal);
    if gate.Err? {
      return Failed(gate.error);
    }
    r := PhotoService.DeleteById(db, id);
  }

  /** The position of the first id the gate refuses, or the number of ids. */
  function FirstRejected(photos: map<nat, Photo>, ids: seq<nat>, principal: nat): (k: nat)
    ensures k <= |ids|
    ensures forall i :: 0 <= i < k ==> OwnedPhoto(photos, ids[i], principal).Ok?
    ensures k < |ids| ==> OwnedPhoto(photos, ids[k], principal).Err?
  {
    if ids == [] then 0
    else if OwnedPhoto(photos, ids[0], principal).Err? then 0
    else
      var k := FirstRejected(photos, ids[1..], principal);
      assert forall i :: 1 <= i < k + 1 ==> ids[i] == ids[1..][i - 1];
      1 + k
  }

  /** The pre-check loop of bulkDelete: every id goes through the gate, in
      order, and the first refusal is the answer. */
  method CheckAllOwned(photos: map<nat, Photo>, ids: seq<nat>, principal: nat) returns (r: Status)
    ensures var k := FirstRejected(photos, ids, principal);
            r == if k == |ids| then Done else Failed(OwnedPhoto(photos, ids[k], principal).error)
  {
    for i := 0 to |ids|
      invariant forall j :: 0 <= j < i ==> OwnedPhoto(photos, ids[j], principal).Ok?
      invariant i <= FirstRejected(photos, ids, principal)
    {
      var gate := OwnedPhoto(photos, ids[i], principal);
      if gate.Err? {
        return Failed(gate.error);
      }
    }
    return Done;
  }

  /** The pre-check passes exactly when every id is a stored photo of the principal. */
  lemma CheckPassesIffAllOwned(photos: map<nat, Photo>, ids: seq<nat>, principal: nat)
    ensures FirstRejected(photos, ids, principal) == |ids| <==>
              forall i :: 0 <= i < |ids| ==> ids[i] in photos && photos[ids[i]].owner == Some(principal)
  {
  }

  /** bulkDelete: the gate for every id before anything is deleted; the first
      missing id gives NotFound and the first foreign one 403, with nothing
      deleted; otherwise exactly the listed photos are removed. */
  method BulkDelete(db: Database, ids: seq<nat>, principal: nat) returns (r: Status)
    requires db.Valid()
    modifies db
    ensures db.Valid()
    ensures r == Done <==> forall i :: 0 <= i < |ids| ==> ids[i] in old(db.photos) && old(db.photos)[ids[i]].owner == Some(principal)
    ensures r.Failed? ==>
              var k := FirstRejected(old(db.photos), ids, principal);
              && k < |ids| && r.error == OwnedPhoto(old(db.photos), ids[k], principal).error
              && db.Snapshot() == old(db.Snapshot())
    ensures r == Done ==> db.Snapshot() == old(db.Snapshot()).(photos := old(db.photos) - Members(ids))
  {
    CheckPassesIffAllOwned(db.photos, ids, principal);
    var verdict := CheckAllOwned(db.photos, ids, principal);
    if verdict.Failed? {
      return verdict;
    }
    r := PhotoService.BulkDeleteByIds(db, ids);
  }

  /** The response of a file download: the Content-Disposition header, the
      content type and length headers, and the bytes. */
  datatype Attachment = Attachment(disposition: string, filename: string, contentType: string,
                                   contentLength: int, body: Bytes)

  const OctetStream: string := "application/octet-stream"

  /** The download headers: the original filename or "photo-" and the id, the
      stored content type or application/octet-stream, the stored size or the
      number of bytes. */
  function AttachmentOf(p: Photo, body: Bytes): (a: Attachment)
    ensures p.originalFilename.Some? ==> a.filename == p.originalFilename.value
    ensures p.originalFilename.None? ==> a.filename == "photo-" + NatToDecimal(p.id)
    ensures a.disposition == "attachment; filename=" + a.filename
    ensures a.contentType == if p.contentType.Some? then p.contentType.value else OctetStream
    ensures a.contentLength == if p.size.Some? then p.size.value else |body|
    ensures a.body == body
  {
    var filename := if p.originalFilename.Some? then p.originalFilename.value else "photo-" + NatToDecimal(p.id);
    Attachment("attachment; filename=" + filename, filename,
               if p.contentType.Some? then p.contentType.value else OctetStream,
               if p.size.Some? then p.size.value else |body|, body)
  }

  /** The fallback filename names the photo: after "photo-" come the decimal
      digits of its id, and nothing else. */
  lemma FallbackFilenameNamesPhoto(p: Photo, body: Bytes)
    requires p.originalFilename.None?
    ensures var f := AttachmentOf(p, body).filename;
            && StartsWith(f, "photo-") && AllDigits(f[6..]) && DecimalValue(f[6..]) == p.id
  {
    var f := AttachmentOf(p, body).filename;
    assert f[6..] == NatToDecimal(p.id);
    DecimalRoundTrip(p.id);
  }

  /** download: the ownership gate, then the stored bytes (NotFound when the
      photo has none) with the download headers. */
  function Download(photos: map<nat, Photo>, id: nat, principal: nat): (r: Result<Attachment>)
    ensures r.Ok? <==> id in photos && photos[id].owner == Some(principal) && photos[id].data.Some?
    ensures r.Ok? ==> r.value == AttachmentOf(photos[id], photos[id].data.value)
    ensures r.Err? && OwnedPhoto(photos, id, principal).Err? ==> r.error == OwnedPhoto(photos, id, principal).error
    ensures r.Err? && OwnedPhoto(photos, id, principal).Ok? ==> r.error == NotFound
  {
    match OwnedPhoto(photos, id, principal)
    case Err(e) => Err(e)
    case Ok(p) =>
      match PhotoService.GetImageResource(photos, id)
      case Err(e) => Err(e)
      case Ok(bytes) => Ok(AttachmentOf(p, bytes))
  }

  /** The paginated response: the page's counters and flags, and the photos as DTOs. */
  datatype PaginatedPhotoResponse = PaginatedPhotoResponse(
    content: seq<PhotoDto>,
    totalElements: nat,
    totalPages: nat,
    size: nat,
    number: nat,
    first: bool,
    last: bool,
    numberOfElements: nat)

  function PhotoDtos(photos: seq<Photo>): (ds: seq<PhotoDto>)
    ensures |ds| == |photos| && forall i :: 0 <= i < |ds| ==> ds[i] == PhotoDtoOf(photos[i])
  {
    if photos == [] then [] else [PhotoDtoOf(photos[0])] + PhotoDtos(photos[1..])
  }

  /** fromPage: the counters and flags copied, the content converted element
      by element. */
  function FromPage(page: Paging.Page<Photo>): (r: PaginatedPhotoResponse)
    ensures r.totalElements == page.totalElements && r.totalPages == page.totalPages
    ensures r.size == page.size && r.number == page.number
    ensures r.first == page.IsFirst() && r.last == page.IsLast()
    ensures r.numberOfElements == |page.content| == |r.content|
    ensures forall i :: 0 <= i < |r.content| ==> r.content[i] == PhotoDtoOf(page.content[i])
  {
    PaginatedPhotoResponse(PhotoDtos(page.content), page.totalElements, page.totalPages, page.size, page.number,
                           page.IsFirst(), page.IsLast(), page.NumberOfElements())
  }

  /** For a page of a result list within range, `last` is set exactly when the
      page's photos reach the end of the list. */
  lemma FromPageLastReachesEnd(all: seq<Photo>, number: nat, size: nat)
    requires size >= 1 && number < Paging.TotalPages(|all|, size)
    ensures var r := FromPage(Paging.PageOf(all, number, size));
            r.last <==> number * size + r.numberOfElements == |all|
  {
    Paging.LastPageReachesEnd(all, number, size);
  }
}
