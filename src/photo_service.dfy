/** The photo service: upload validation, single and bulk creation, update,
    single and bulk deletion, and the metadata and image reads. */
module PhotoService {
  import opened Wrappers
  import opened Text
  import opened Entities
  import opened Store
  import opened Dtos
  import opened GalleryRepository
  import opened PhotoRepository

  /** The checks create, bulkCreate and update apply to a file: its size first,
      then its content type. */
  function ValidateUpload(file: Upload): (r: Status)
    ensures r == Failed(BadRequest(FileTooLarge)) <==> file.Size() > MaxImageBytes
    ensures r == Failed(BadRequest(NotAnImage)) <==>
              file.Size() <= MaxImageBytes && (file.contentType.None? || !StartsWith(file.contentType.value, "image/"))
    ensures r == Done <==>
              file.Size() <= MaxImageBytes && file.contentType.Some? && StartsWith(file.contentType.value, "image/")
  {
    if file.Size() > MaxImageBytes then Failed(BadRequest(FileTooLarge))
    else if file.contentType.None? || !StartsWith(file.contentType.value, "image/") then Failed(BadRequest(NotAnImage))
    else Done
  }

  /** The limit is inclusive: an image of exactly 8 MiB passes, one byte more does not. */
  lemma SizeLimitIsInclusive(name: Option<string>, bytes: Bytes)
    ensures |bytes| == 8 * 1024 * 1024 ==> ValidateUpload(Upload(name, Some("image/png"), bytes)) == Done
    ensures |bytes| == 8 * 1024 * 1024 + 1 ==> ValidateUpload(Upload(name, Some("image/png"), bytes)).Failed?
  {
    assert StartsWith("image/png", "image/");
  }

  /** The photo create and bulkCreate build: the given title and description,
      the file's name, type, size and bytes, the owner, no gallery. */
  function NewPhoto(title: string, description: Option<string>, file: Upload, owner: nat): (p: Photo)
    ensures p.id == Unsaved && p.title == title && p.description == description
    ensures p.originalFilename == file.originalFilename && p.contentType == file.contentType
    ensures p.size == Some(file.Size()) && p.data == Some(file.bytes)
    ensures p.owner == Some(owner) && p.gallery.None? && p.createdAt.None?
  {
    BlankPhoto().(title := title, description := description, originalFilename := file.originalFilename,
                  contentType := file.contentType, size := Some(file.Size()), data := Some(file.bytes),
                  owner := Some(owner))
  }

  /** The created photo meets the column constraints exactly when the title,
      description, filename and content type fit them. */
  lemma NewPhotoInvariant(title: string, description: Option<string>, file: Upload, owner: nat)
    ensures PhotoInvariant(NewPhoto(title, description, file, owner)) <==>
              && !IsBlank(title) && |title| <= 255
              && (description.Some? ==> |description.value| <= 500)
              && (file.originalFilename.Some? ==> |file.originalFilename.value| <= 255)
              && (file.contentType.Some? ==> |file.contentType.value| <= 100)
  {
  }

  /** create: a validated upload becomes a new photo of `owner`; a rejected one
      changes nothing. */
  method Create(db: Database, title: string, description: Option<string>, file: Upload, owner: nat)
    returns (r: Result<Photo>)
    requires db.Valid() && owner in db.users
    modifies db
    ensures db.Valid()
    ensures r.Err? <==> ValidateUpload(file).Failed?
    ensures r.Err? ==> r.error == ValidateUpload(file).error && db.Snapshot() == old(db.Snapshot())
    ensures r.Ok? ==>
              && r.value == NewPhoto(title, description, file, owner).(id := old(db.nextPhotoId))
              && r.value.id !in old(db.photos)
              && db.Snapshot() == old(db.Snapshot()).(photos := old(db.photos)[r.value.id := r.value],
                                                      nextPhotoId := r.value.id + 1)
  {
    var verdict := ValidateUpload(file);
    if verdict.Failed? {
      return Err(verdict.error);
    }
    var saved := Insert(db, NewPhoto(title, description, file, owner));
    r := Ok(saved);
  }

  /** getFilenameWithoutExtension: "Untitled" for no name; otherwise the name up
      to its last '.', unless that '.' is missing or the first character. */
  function FilenameWithoutExtension(filename: Option<string>): (r: string)
    ensures filename.None? ==> r == "Untitled"
    ensures filename.Some? ==> StartsWith(filename.value, r)
    ensures filename.Some? ==>
              (r == filename.value <==> forall k :: 0 < k < |filename.value| ==> filename.value[k] != '.')
    ensures filename.Some? && r != filename.value ==>
              && 0 < |r| < |filename.value| && filename.value[|r|] == '.'
              && forall k :: |r| < k < |filename.value| ==> filename.value[k] != '.'
  {
    match filename
    case None => "Untitled"
    case Some(f) =>
      var dot := LastIndexOf(f, '.');
      if dot > 0 then f[..dot] else f
  }

  /** Whether the caller supplied a usable title for file i. */
  predicate HasTitle(titles: Option<seq<Option<string>>>, i: nat) {
    titles.Some? && i < |titles.value| && titles.value[i].Some? && !IsBlank(titles.value[i].value)
  }

  /** The title bulkCreate gives file i: the trimmed supplied title, else the
      file's name without extension. */
  function BulkTitle(titles: Option<seq<Option<string>>>, i: nat, file: Upload): string {
    if HasTitle(titles, i) then Trim(titles.value[i].value)
    else FilenameWithoutExtension(file.originalFilename)
  }

  /** The title bulkCreate gives file i: titles[i] trimmed when it is non-blank
      (and then the result is non-blank), else the filename without extension. */
  lemma BulkTitleChoice(titles: Option<seq<Option<string>>>, i: nat, file: Upload)
    ensures HasTitle(titles, i) ==> BulkTitle(titles, i, file) == Trim(titles.value[i].value)
                                    && !IsBlank(BulkTitle(titles, i, file))
    ensures !HasTitle(titles, i) ==> BulkTitle(titles, i, file) == FilenameWithoutExtension(file.originalFilename)
  {
    if HasTitle(titles, i) {
      var r := Trim(titles.value[i].value);
      TrimOfTrimmed(r);
    }
  }

  lemma TrimOfTrimmed(s: string)
    requires s == [] || (!IsJavaSpace(s[0]) && !IsJavaSpace(s[|s| - 1]))
    ensures Trim(s) == s
  {
    if s != [] {
      assert LeadingSpaces(s) == 0;
      assert TrailingSpaces(s) == 0;
    }
  }

  /** The description bulkCreate gives file i: descriptions[i] when present, else none. */
  function BulkDescription(descriptions: Option<seq<Option<string>>>, i: nat): (r: Option<string>)
    ensures descriptions.Some? && i < |descriptions.value| ==> r == descriptions.value[i]
    ensures descriptions.None? || i >= |descriptions.value| ==> r.None?
  {
    if descriptions.Some? && i < |descriptions.value| then descriptions.value[i] else None
  }

  /** The index of the first file that fails validation, or the number of files. */
  function FirstInvalidUpload(files: seq<Upload>): (k: nat)
    ensures k <= |files|
    ensures forall i :: 0 <= i < k ==> ValidateUpload(files[i]) == Done
    ensures k < |files| ==> ValidateUpload(files[k]).Failed?
  {
    if files == [] then 0
    else if ValidateUpload(files[0]).Failed? then 0
    else
      var k := FirstInvalidUpload(files[1..]);
      assert forall i :: 1 <= i < k + 1 ==> files[i] == files[1..][i - 1];
      1 + k
  }

  /** The photo bulkCreate builds for file i. */
  function BulkPhoto(files: seq<Upload>, titles: Option<seq<Option<string>>>,
                     descriptions: Option<seq<Option<string>>>, owner: nat, i: nat): Photo
    requires i < |files|
  {
    NewPhoto(BulkTitle(titles, i, files[i]), BulkDescription(descriptions, i), files[i], owner)
  }

  /** The photos bulkCreate builds for the first `count` files, before saving. */
  function BulkBuilt(files: seq<Upload>, titles: Option<seq<Option<string>>>,
                     descriptions: Option<seq<Option<string>>>, owner: nat, count: nat): (built: seq<Photo>)
    requires count <= |files|
    ensures |built| == count
  {
    if count == 0 then []
    else BulkBuilt(files, titles, descriptions, owner, count - 1) + [BulkPhoto(files, titles, descriptions, owner, count - 1)]
  }

  /** Position j of the built photos holds the photo built for file j. */
  lemma {:induction false} BulkBuiltAt(files: seq<Upload>, titles: Option<seq<Option<string>>>,
                                       descriptions: Option<seq<Option<string>>>, owner: nat, count: nat, j: nat)
    requires j < count <= |files|
    ensures BulkBuilt(files, titles, descriptions, owner, count)[j] == BulkPhoto(files, titles, descriptions, owner, j)
  {
    if j < count - 1 {
      BulkBuiltAt(files, titles, descriptions, owner, count - 1, j);
    }
  }

  /** The photo table after the first `count` photos of `built` were saved into
      `stored`, from identity `base` on. */
  function SavedInto(stored: map<nat, Photo>, built: seq<Photo>, base: nat, count: nat): map<nat, Photo>
    requires count <= |built|
  {
    if count == 0 then stored
    else SavedInto(stored, built, base, count - 1)[base + count - 1 := built[count - 1].(id := base + count - 1)]
  }

  /** What saving the first `count` photos leaves: the photos stored before,
      untouched, and under identities base .. base + count - 1 the built photos
      0 .. count - 1, in order. */
  lemma {:induction false} SavedIntoContents(stored: map<nat, Photo>, built: seq<Photo>, base: nat, count: nat)
    requires count <= |built|
    requires forall id :: id in stored ==> id < base
    ensures var after := SavedInto(stored, built, base, count);
            && (forall id :: id in after <==> id in stored || base <= id < base + count)
            && (forall id :: id in stored ==> after[id] == stored[id])
            && (forall j :: 0 <= j < count ==> after[base + j] == built[j].(id := base + j))
  {
    if count > 0 {
      SavedIntoContents(stored, built, base, count - 1);
    }
  }

  /** The list of the first `count` built photos as saved from identity `base` on. */
  function SavedList(built: seq<Photo>, base: nat, count: nat): seq<Photo>
    requires count <= |built|
  {
    if count == 0 then []
    else SavedList(built, base, count - 1) + [built[count - 1].(id := base + count - 1)]
  }

  /** The saved list holds, at position j, built photo j under identity base + j. */
  lemma {:induction false} SavedListContents(built: seq<Photo>, base: nat, count: nat)
    requires count <= |built|
    ensures var saved := SavedList(built, base, count);
            && |saved| == count
            && forall j :: 0 <= j < count ==> saved[j] == built[j].(id := base + j)
  {
    if count > 0 {
      SavedListContents(built, base, count - 1);
    }
  }

  /** One iteration of bulkCreate: validate file i and, when it passes, save the
      photo built for it under the next identity, extending what the earlier
      iterations saved. */
  method SaveBulkFile(db: Database, fs: seq<Upload>, titles: Option<seq<Option<string>>>,
                      descriptions: Option<seq<Option<string>>>, owner: nat, i: nat,
                      ghost stored: map<nat, Photo>, ghost built: seq<Photo>, ghost base: nat)
    returns (verdict: Status, saved: Photo)
    requires db.Valid() && owner in db.users && i < |fs|
    requires built == BulkBuilt(fs, titles, descriptions, owner, |fs|)
    requires db.photos == SavedInto(stored, built, base, i) && db.nextPhotoId == base + i
    modifies db
    ensures db.Valid()
    ensures verdict == ValidateUpload(fs[i])
    ensures db.users == old(db.users) && db.galleries == old(db.galleries)
    ensures db.nextUserId == old(db.nextUserId) && db.nextGalleryId == old(db.nextGalleryId)
    ensures verdict.Failed? ==> db.photos == old(db.photos) && db.nextPhotoId == old(db.nextPhotoId)
    ensures verdict.Done? ==>
              && db.photos == SavedInto(stored, built, base, i + 1)
              && db.nextPhotoId == base + i + 1
              && SavedList(built, base, i + 1) == SavedList(built, base, i) + [saved]
  {
    var file := fs[i];
    var title := BulkTitle(titles, i, file);
    var description := BulkDescription(descriptions, i);
    verdict := ValidateUpload(file);
    saved := BlankPhoto();
    if verdict.Done? {
      saved := Insert(db, NewPhoto(title, description, file, owner));
      BulkBuiltAt(fs, titles, descriptions, owner, |fs|, i);
    }
  }

  /** The loop of bulkCreate: validate and save the files in order, stopping at
      the first invalid one with the photos before it already saved. */
  method SaveFiles(db: Database, fs: seq<Upload>, titles: Option<seq<Option<string>>>,
                   descriptions: Option<seq<Option<string>>>, owner: nat)
    returns (verdict: Status, created: seq<Photo>)
    requires db.Valid() && owner in db.users
    modifies db
    ensures db.Valid()
    ensures db.users == old(db.users) && db.galleries == old(db.galleries)
    ensures db.nextUserId == old(db.nextUserId) && db.nextGalleryId == old(db.nextGalleryId)
    ensures var k := FirstInvalidUpload(fs);
            && db.photos == SavedInto(old(db.photos), BulkBuilt(fs, titles, descriptions, owner, |fs|),
                                      old(db.nextPhotoId), k)
            && db.nextPhotoId == old(db.nextPhotoId) + k
            && (verdict.Done? <==> k == |fs|)
            && (verdict.Failed? ==> k < |fs| && verdict == ValidateUpload(fs[k]))
    ensures verdict.Done? ==>
              created == SavedList(BulkBuilt(fs, titles, descriptions, owner, |fs|), old(db.nextPhotoId), |fs|)
  {
    var base := db.nextPhotoId;
    created := [];
    ghost var built := BulkBuilt(fs, titles, descriptions, owner, |fs|);
    for i := 0 to |fs|
      invariant db.Valid()
      invariant i <= FirstInvalidUpload(fs)
      invariant db.users == old(db.users) && db.galleries == old(db.galleries)
      invariant db.nextUserId == old(db.nextUserId) && db.nextGalleryId == old(db.nextGalleryId)
      invariant db.photos == SavedInto(old(db.photos), built, base, i)
      invariant db.nextPhotoId == base + i
      invariant created == SavedList(built, base, i)
    {
      var saved;
      verdict, saved := SaveBulkFile(db, fs, titles, descriptions, owner, i, old(db.photos), built, base);
      if verdict.Failed? {
        assert FirstInvalidUpload(fs) == i;
        return;
      }
      created := created + [saved];
    }
    assert FirstInvalidUpload(fs) == |fs|;
    verdict := Done;
  }

  /** bulkCreate: no files is a bad request that saves nothing; otherwise each
      file in order is validated and saved, and the first invalid file stops the
      call with the photos before it already saved. */
  method BulkCreate(db: Database, files: Option<seq<Upload>>, titles: Option<seq<Option<string>>>,
                    descriptions: Option<seq<Option<string>>>, owner: nat)
    returns (r: Result<seq<Photo>>)
    requires db.Valid() && owner in db.users
    modifies db
    ensures db.Valid()
    ensures files.None? || files.value == [] ==>
              r == Err(BadRequest(NoFiles)) && db.Snapshot() == old(db.Snapshot())
    ensures db.users == old(db.users) && db.galleries == old(db.galleries)
    ensures db.nextUserId == old(db.nextUserId) && db.nextGalleryId == old(db.nextGalleryId)
    ensures files.Some? && files.value != [] ==>
              var fs := files.value;
              var k := FirstInvalidUpload(fs);
              && (forall id :: old(db.nextPhotoId) <= id ==> id !in old(db.photos))
              && db.photos == SavedInto(old(db.photos), BulkBuilt(fs, titles, descriptions, owner, |fs|), old(db.nextPhotoId), k)
              && db.nextPhotoId == old(db.nextPhotoId) + k
              && (r.Ok? <==> k == |fs|)
              && (r.Err? ==> k < |fs| && r.error == ValidateUpload(fs[k]).error)
    ensures r.Ok? ==>
              && files.Some?
              && r.value == SavedList(BulkBuilt(files.value, titles, descriptions, owner, |files.value|),
                                      old(db.nextPhotoId), |files.value|)
  {
    if files.None? || files.value == [] {
      return Err(BadRequest(NoFiles));
    }
    var verdict, created := SaveFiles(db, files.value, titles, descriptions, owner);
    r := if verdict.Done? then Ok(created) else Err(verdict.error);
  }

  /** The photo update leaves: new title and description, and the file fields
      replaced only by a non-empty file. */
  function UpdatedPhoto(p: Photo, title: string, description: Option<string>, file: Option<Upload>): Photo {
    var q := p.(title := title, description := description);
    if file.Some? && !file.value.IsEmpty() then
      q.(originalFilename := file.value.originalFilename, contentType := file.value.contentType,
         size := Some(file.value.Size()), data := Some(file.value.bytes))
    else q
  }

  /** update keeps the photo's identity, owner, gallery and creation time, and
      without a non-empty file keeps the stored image and its fields. */
  lemma UpdateKeepsIdentity(p: Photo, title: string, description: Option<string>, file: Option<Upload>)
    ensures var q := UpdatedPhoto(p, title, description, file);
            && q.id == p.id && q.owner == p.owner && q.gallery == p.gallery && q.createdAt == p.createdAt
            && q.title == title && q.description == description
            && (file.None? || file.value.IsEmpty() ==>
                  q.originalFilename == p.originalFilename && q.contentType == p.contentType
                  && q.size == p.size && q.data == p.data)
            && (file.Some? && !file.value.IsEmpty() ==>
                  q.data == Some(file.value.bytes) && q.size == Some(|file.value.bytes|)
                  && q.originalFilename == file.value.originalFilename && q.contentType == file.value.contentType)
  {
  }

  /** update: NotFound for a missing id; a non-empty file is validated as in
      create; a rejection saves nothing. */
  method Update(db: Database, id: nat, title: string, description: Option<string>, file: Option<Upload>)
    returns (r: Result<Photo>)
    requires db.Valid()
    modifies db
    ensures db.Valid()
    ensures r == Err(NotFound) <==> id !in old(db.photos)
    ensures r.Ok? <==>
              id in old(db.photos) && (file.None? || file.value.IsEmpty() || ValidateUpload(file.value) == Done)
    ensures r.Err? && id in old(db.photos) ==> r.error == ValidateUpload(file.value).error
    ensures r.Err? ==> db.Snapshot() == old(db.Snapshot())
    ensures r.Ok? ==>
              && r.value == UpdatedPhoto(old(db.photos)[id], title, description, file)
              && db.Snapshot() == old(db.Snapshot()).(photos := old(db.photos)[id := r.value])
  {
    var found := FindById(db.photos, id);
    if found.Err? {
      return Err(found.error);
    }
    if file.Some? && !file.value.IsEmpty() {
      var verdict := ValidateUpload(file.value);
      if verdict.Failed? {
        return Err(verdict.error);
      }
    }
    var updated := UpdatedPhoto(found.value, title, description, file);
    db.photos := db.photos[id := updated];
    r := Ok(updated);
  }

  /** deleteById: NotFound for a missing id, otherwise removes that photo only. */
  method DeleteById(db: Database, id: nat) returns (r: Status)
    requires db.Valid()
    modifies db
    ensures db.Valid()
    ensures r == Failed(NotFound) <==> id !in old(db.photos)
    ensures r.Failed? ==> r.error == NotFound && db.Snapshot() == old(db.Snapshot())
    ensures r == Done ==> db.Snapshot() == old(db.Snapshot()).(photos := old(db.photos) - {id})
  {
    if id !in db.photos {
      return Failed(NotFound);
    }
    RemovePhotosKeepsValid(db.Snapshot(), {id});
    db.photos := db.photos - {id};
    r := Done;
  }

  /** The existence check of bulkDeleteByIds: true when every id is stored. */
  method AllExist(photos: map<nat, Photo>, ids: seq<nat>) returns (ok: bool)
    ensures ok <==> forall i :: 0 <= i < |ids| ==> ids[i] in photos
  {
    for i := 0 to |ids|
      invariant forall j :: 0 <= j < i ==> ids[j] in photos
    {
      if ids[i] !in photos {
        return false;
      }
    }
    return true;
  }

  /** bulkDeleteByIds: when any id is missing, NotFound and nothing is deleted;
      otherwise exactly the listed photos are removed. */
  method BulkDeleteByIds(db: Database, ids: seq<nat>) returns (r: Status)
    requires db.Valid()
    modifies db
    ensures db.Valid()
    ensures r == Done <==> forall i :: 0 <= i < |ids| ==> ids[i] in old(db.photos)
    ensures r.Failed? ==> r.error == NotFound && db.Snapshot() == old(db.Snapshot())
    ensures r == Done ==> db.Snapshot() == old(db.Snapshot()).(photos := old(db.photos) - Members(ids))
  {
    var ok := AllExist(db.photos, ids);
    if !ok {
      return Failed(NotFound);
    }
    RemovePhotosKeepsValid(db.Snapshot(), Members(ids));
    DeleteAll(db, ids);
    r := Done;
  }

  /** getMetadata: the stored fields of the photo without its bytes. */
  function GetMetadata(photos: map<nat, Photo>, id: nat): (r: Result<PhotoMetadata>)
    ensures r.Err? <==> id !in photos
    ensures r.Err? ==> r.error == NotFound
    ensures r.Ok? ==> var p := photos[id];
              r.value == PhotoMetadata(p.id, p.title, p.description, p.originalFilename, p.contentType, p.size)
  {
    match FindById(photos, id)
    case Err(e) => Err(e)
    case Ok(p) => Ok(PhotoMetadata(p.id, p.title, p.description, p.originalFilename, p.contentType, p.size))
  }

  /** getImageResource: the stored bytes; NotFound for a missing photo or one
      with no bytes, while an empty byte array is returned as it is. */
  function GetImageResource(photos: map<nat, Photo>, id: nat): (r: Result<Bytes>)
    ensures r.Err? <==> id !in photos || photos[id].data.None?
    ensures r.Err? ==> r.error == NotFound
    ensures r.Ok? ==> r.value == photos[id].data.value
  {
    match FindById(photos, id)
    case Err(e) => Err(e)
    case Ok(p) => if p.data.None? then Err(NotFound) else Ok(p.data.value)
  }

  /** What create stores reads back: the metadata is the submitted fields and
      the image is the uploaded bytes. */
  lemma CreateReadsBack(photos: map<nat, Photo>, id: nat, title: string, description: Option<string>,
                        file: Upload, owner: nat)
    requires id in photos && photos[id] == NewPhoto(title, description, file, owner).(id := id)
    ensures GetMetadata(photos, id) ==
              Ok(PhotoMetadata(id, title, description, file.originalFilename, file.contentType, Some(|file.bytes|)))
    ensures GetImageResource(photos, id) == Ok(file.bytes)
  {
  }

  /** What update stores reads back: the new title and description, and the new
      file's fields and bytes when a non-empty file was given. */
  lemma UpdateReadsBack(photos: map<nat, Photo>, id: nat, title: string, description: Option<string>, file: Upload)
    requires id in photos && !file.IsEmpty()
    ensures var after := photos[id := UpdatedPhoto(photos[id], title, description, Some(file))];
            && GetMetadata(after, id) ==
                 Ok(PhotoMetadata(photos[id].id, title, description, file.originalFilename, file.contentType, Some(|file.bytes|)))
            && GetImageResource(after, id) == Ok(file.bytes)
  {
  }
}
