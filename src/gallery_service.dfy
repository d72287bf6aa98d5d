/** The gallery service: creating, renaming and deleting a user's galleries,
    moving photos between them, and the gallery views (lists, one gallery with
    its photos, a four-photo preview). */
module GalleryService {
  import opened Wrappers
  import opened Entities
  import opened Store
  import opened Dtos
  import opened GalleryRepository
  import opened PhotoRepository
  import Paging

  /** convertToDto: the gallery's own fields, its photo count, no photo list. */
  function ConvertToDto(t: Tables, g: Gallery): (d: GalleryDto)
    ensures d.id == g.id && d.name == g.name && d.description == g.description
    ensures d.userId == g.owner && d.createdAt == g.createdAt && d.updatedAt == g.updatedAt
    ensures d.previewPhotos.None?
    ensures d.photoCount == PhotoCount(t.photos, g.id, t.nextPhotoId)
  {
    GalleryDto(g.id, g.name, g.description, g.owner,
               PhotoCount(t.photos, g.id, t.nextPhotoId), g.createdAt, g.updatedAt, None)
  }

  /** The count convertToDto reports is the number of photos filed in the gallery. */
  lemma ConvertToDtoCountsPhotos(t: Tables, g: Gallery)
    requires TablesValid(t)
    ensures ConvertToDto(t, g).photoCount == |set k | k in t.photos && t.photos[k].gallery == Some(g.id)|
  {
    PhotoCountIsGallerySize(t.photos, g.id, t.nextPhotoId);
  }

  /** convertPhotoToDto: the photo's descriptive fields plus its owner's id and
      its gallery's id, the latter absent exactly when the photo is unfiled. */
  function ConvertPhotoToDto(p: Photo): (d: PhotoDto)
    requires p.owner.Some?
    ensures d.galleryId.None? <==> p.gallery.None?
    ensures d.galleryId == p.gallery && d.userId == p.owner
    ensures d.(userId := None, galleryId := None) == PhotoDtoOf(p)
  {
    PhotoDtoOf(p).(userId := Some(p.owner.value), galleryId := if p.gallery.Some? then Some(p.gallery.value) else None)
  }

  function ConvertPhotos(ps: seq<Photo>): (ds: seq<PhotoDto>)
    requires forall i :: 0 <= i < |ps| ==> ps[i].owner.Some?
    ensures |ds| == |ps| && forall i :: 0 <= i < |ds| ==> ds[i] == ConvertPhotoToDto(ps[i])
  {
    seq(|ps|, i requires 0 <= i < |ps| => ConvertPhotoToDto(ps[i]))
  }

  /** In valid tables the photos of a gallery are stored under their own ids and
      belong to the gallery's owner. */
  lemma GalleryPhotosBelongToOwner(t: Tables, galleryId: nat)
    requires TablesValid(t) && galleryId in t.galleries
    ensures var ids := PhotoIdsOfGallery(t.photos, galleryId, t.nextPhotoId);
            forall i :: 0 <= i < |ids| ==>
              t.photos[ids[i]].id == ids[i] && t.photos[ids[i]].owner == Some(t.galleries[galleryId].owner)
  {
  }

  /** The ids of a list of photo DTOs. */
  function DtoIds(ds: seq<PhotoDto>): (ids: seq<nat>)
    ensures |ids| == |ds| && forall i :: 0 <= i < |ds| ==> ids[i] == ds[i].id
  {
    if ds == [] then [] else [ds[0].id] + DtoIds(ds[1..])
  }

  /** The photos of an existing gallery as DTOs, by ascending id: every photo
      filed in it, once, each tagged with the gallery and the gallery's owner. */
  function GalleryPhotoDtos(t: Tables, galleryId: nat): (ds: seq<PhotoDto>)
    requires TablesValid(t) && galleryId in t.galleries
    ensures |ds| == PhotoCount(t.photos, galleryId, t.nextPhotoId)
    ensures DtoIds(ds) == PhotoIdsOfGallery(t.photos, galleryId, t.nextPhotoId)
    ensures forall i :: 0 <= i < |ds| ==>
              && ds[i].galleryId == Some(galleryId)
              && ds[i].userId == Some(t.galleries[galleryId].owner)
  {
    var ids := PhotoIdsOfGallery(t.photos, galleryId, t.nextPhotoId);
    PhotoCountIsListLength(t.photos, galleryId, t.nextPhotoId);
    GalleryPhotosBelongToOwner(t, galleryId);
    var ps := Lookup(t.photos, ids);
    var ds := ConvertPhotos(ps);
    assert DtoIds(ds) == ids;
    ds
  }

  /** Viewing a gallery shows every photo filed in it, and only those, once each
      and by ascending id. */
  lemma {:induction false} GalleryPhotoDtosComplete(t: Tables, galleryId: nat)
    requires TablesValid(t) && galleryId in t.galleries
    ensures Members(DtoIds(GalleryPhotoDtos(t, galleryId))) ==
              (set k | k in t.photos && t.photos[k].gallery == Some(galleryId))
    ensures forall i, j :: 0 <= i < j < |GalleryPhotoDtos(t, galleryId)| ==>
              GalleryPhotoDtos(t, galleryId)[i].id < GalleryPhotoDtos(t, galleryId)[j].id
  {
    PhotoCountIsGallerySize(t.photos, galleryId, t.nextPhotoId);
    var ds := GalleryPhotoDtos(t, galleryId);
    assert forall i :: 0 <= i < |ds| ==> ds[i].id == DtoIds(ds)[i];
  }

  /** getGallery: an owned gallery with all its photos; NotFound for a gallery
      that does not exist or that another user owns. */
  function GetGallery(t: Tables, galleryId: nat, userId: nat): (r: Result<GalleryDto>)
    requires TablesValid(t)
    ensures r.Ok? <==> galleryId in t.galleries && t.galleries[galleryId].owner == userId
    ensures r.Err? ==> r.error == NotFound
    ensures r.Ok? ==> && r.value.id == galleryId && r.value.userId == userId
                      && r.value.previewPhotos == Some(GalleryPhotoDtos(t, galleryId))
                      && |r.value.previewPhotos.value| == r.value.photoCount
    ensures r.Ok? ==>
              r.value == ConvertToDto(t, t.galleries[galleryId]).(previewPhotos := Some(GalleryPhotoDtos(t, galleryId)))
  {
    match FindByIdAndUserId(t.galleries, galleryId, userId)
    case None => Err(NotFound)
    case Some(g) => Ok(ConvertToDto(t, g).(previewPhotos := Some(GalleryPhotoDtos(t, galleryId))))
  }

  /** getGalleryPreview: the same gallery view cut to its first four photos. */
  function GetGalleryPreview(t: Tables, galleryId: nat, userId: nat): (r: Result<GalleryDto>)
    requires TablesValid(t)
    ensures r.Ok? <==> GetGallery(t, galleryId, userId).Ok?
    ensures r.Err? ==> r.error == NotFound
    ensures r.Ok? ==>
              var full := GetGallery(t, galleryId, userId).value;
              && r.value.(previewPhotos := None) == full.(previewPhotos := None)
              && r.value.previewPhotos.Some?
              && |r.value.previewPhotos.value| == (if full.photoCount < 4 then full.photoCount else 4)
              && r.value.previewPhotos.value == full.previewPhotos.value[..|r.value.previewPhotos.value|]
  {
    match FindByIdAndUserIdWithFirstPhotos(t.galleries, t.photos, t.nextPhotoId, galleryId, userId)
    case None => Err(NotFound)
    case Some((g, _)) =>
      var all := GalleryPhotoDtos(t, galleryId);
      var n := if |all| < 4 then |all| else 4;
      Ok(ConvertToDto(t, g).(previewPhotos := Some(all[..n])))
  }

  /** The DTOs of a list of galleries, in the same order. */
  function ConvertAll(t: Tables, gs: seq<Gallery>): (ds: seq<GalleryDto>)
    ensures |ds| == |gs| && forall i :: 0 <= i < |ds| ==> ds[i] == ConvertToDto(t, gs[i])
  {
    if gs == [] then [] else [ConvertToDto(t, gs[0])] + ConvertAll(t, gs[1..])
  }

  /** getGalleriesForDropdown: one DTO per gallery of the user, newest first. */
  function GetGalleriesForDropdown(t: Tables, userId: nat): (r: seq<GalleryDto>)
    ensures var ids := UserGalleryIdsNewestFirst(t.galleries, t.nextGalleryId, userId);
            |r| == |ids| && forall i :: 0 <= i < |r| ==> r[i] == ConvertToDto(t, t.galleries[ids[i]])
    ensures forall i :: 0 <= i < |r| ==> r[i].userId == userId
    ensures forall i, j :: 0 <= i < j < |r| ==> r[i].createdAt >= r[j].createdAt
    ensures forall k :: 0 <= k < t.nextGalleryId && k in t.galleries && t.galleries[k].owner == userId ==>
              ConvertToDto(t, t.galleries[k]) in r
  {
    var gs := FindByUserIdOrderByCreatedAtDesc(t.galleries, t.nextGalleryId, userId);
    forall k | 0 <= k < t.nextGalleryId && k in t.galleries && t.galleries[k].owner == userId
      ensures ConvertToDto(t, t.galleries[k]) in ConvertAll(t, gs)
    {
      ConvertAllKeepsMembers(t, gs, t.galleries[k]);
    }
    ConvertAll(t, gs)
  }

  /** In valid tables the dropdown holds each gallery of the user exactly
      once: no id repeats, and there are as many entries as galleries. */
  lemma DropdownListsEachGalleryOnce(t: Tables, userId: nat)
    requires TablesValid(t)
    ensures var r := GetGalleriesForDropdown(t, userId);
            && (forall i, j :: 0 <= i < j < |r| ==> r[i].id != r[j].id)
            && |r| == |set k | k in t.galleries && t.galleries[k].owner == userId|
  {
    var ids := UserGalleryIdsNewestFirst(t.galleries, t.nextGalleryId, userId);
    DistinctCardinality(ids);
    assert Members(ids) == set k | k in t.galleries && t.galleries[k].owner == userId;
  }

  /** Every gallery of the list has its DTO in the converted list. */
  lemma ConvertAllKeepsMembers(t: Tables, gs: seq<Gallery>, g: Gallery)
    requires g in gs
    ensures ConvertToDto(t, g) in ConvertAll(t, gs)
  {
    var i :| 0 <= i < |gs| && gs[i] == g;
    assert ConvertAll(t, gs)[i] == ConvertToDto(t, g);
  }

  function RowsToDtos(t: Tables, rows: seq<CountRow>): (ds: seq<GalleryDto>)
    ensures |ds| == |rows|
    ensures forall i :: 0 <= i < |ds| ==> ds[i] == ConvertToDto(t, rows[i].gallery).(photoCount := rows[i].photoCount)
  {
    if rows == [] then []
    else [ConvertToDto(t, rows[0].gallery).(photoCount := rows[0].photoCount)] + RowsToDtos(t, rows[1..])
  }

  /** getUserGalleries: one entry per gallery of the user, newest first, with
      the count of its photos (0 for an empty gallery). */
  function GetUserGalleries(t: Tables, userId: nat): (r: seq<GalleryDto>)
    ensures var ids := UserGalleryIdsNewestFirst(t.galleries, t.nextGalleryId, userId);
            |r| == |ids| &&
            forall i :: 0 <= i < |r| ==>
              r[i] == ConvertToDto(t, t.galleries[ids[i]]).(photoCount := PhotoCount(t.photos, ids[i], t.nextPhotoId))
    ensures forall i :: 0 <= i < |r| ==> r[i].userId == userId
    ensures forall i, j :: 0 <= i < j < |r| ==> r[i].createdAt >= r[j].createdAt
    ensures forall k :: 0 <= k < t.nextGalleryId && k in t.galleries && t.galleries[k].owner == userId ==>
              ConvertToDto(t, t.galleries[k]).(photoCount := PhotoCount(t.photos, k, t.nextPhotoId)) in r
  {
    var rows := FindGalleriesWithPhotoCountByUserId(t.galleries, t.nextGalleryId, t.photos, t.nextPhotoId, userId);
    RowsToDtosKeepOwnerAndOrder(t, rows, userId);
    forall k | 0 <= k < t.nextGalleryId && k in t.galleries && t.galleries[k].owner == userId
      ensures ConvertToDto(t, t.galleries[k]).(photoCount := PhotoCount(t.photos, k, t.nextPhotoId)) in RowsToDtos(t, rows)
    {
      var i :| 0 <= i < |rows| && rows[i].gallery == t.galleries[k] &&
               rows[i].photoCount == PhotoCount(t.photos, k, t.nextPhotoId);
      RowToDtoListed(t, rows, i);
    }
    RowsToDtos(t, rows)
  }

  lemma RowsToDtosKeepOwnerAndOrder(t: Tables, rows: seq<CountRow>, userId: nat)
    requires forall i :: 0 <= i < |rows| ==> rows[i].gallery.owner == userId
    requires forall i, j :: 0 <= i < j < |rows| ==> rows[i].gallery.createdAt >= rows[j].gallery.createdAt
    ensures forall i :: 0 <= i < |RowsToDtos(t, rows)| ==> RowsToDtos(t, rows)[i].userId == userId
    ensures forall i, j :: 0 <= i < j < |RowsToDtos(t, rows)| ==>
              RowsToDtos(t, rows)[i].createdAt >= RowsToDtos(t, rows)[j].createdAt
  {
  }

  lemma RowToDtoListed(t: Tables, rows: seq<CountRow>, i: nat)
    requires i < |rows|
    ensures ConvertToDto(t, rows[i].gallery).(photoCount := rows[i].photoCount) in RowsToDtos(t, rows)
  {
    assert RowsToDtos(t, rows)[i] == ConvertToDto(t, rows[i].gallery).(photoCount := rows[i].photoCount);
  }

  /** The overview and the dropdown list the same galleries in the same order. */
  lemma OverviewMatchesDropdown(t: Tables, userId: nat)
    requires TablesValid(t)
    ensures |GetUserGalleries(t, userId)| == |GetGalleriesForDropdown(t, userId)|
    ensures forall i :: 0 <= i < |GetUserGalleries(t, userId)| ==>
              GetUserGalleries(t, userId)[i] == GetGalleriesForDropdown(t, userId)[i]
  {
    var ids := UserGalleryIdsNewestFirst(t.galleries, t.nextGalleryId, userId);
    var rows := FindGalleriesWithPhotoCountByUserId(t.galleries, t.nextGalleryId, t.photos, t.nextPhotoId, userId);
    var gs := FindByUserIdOrderByCreatedAtDesc(t.galleries, t.nextGalleryId, userId);
    assert |rows| == |ids| == |gs|;
    forall i | 0 <= i < |rows|
      ensures rows[i].gallery == gs[i] && rows[i].photoCount == PhotoCount(t.photos, gs[i].id, t.nextPhotoId)
    {
      assert rows[i].gallery == t.galleries[ids[i]] == gs[i];
    }
  }

  /** getUserGalleries(userId, pageable): one page of the dropdown list. */
  function GetUserGalleriesPage(t: Tables, userId: nat, page: nat, size: nat): (p: Paging.Page<GalleryDto>)
    requires size >= 1
    ensures p == Paging.PageOf(GetGalleriesForDropdown(t, userId), page, size)
  {
    var gs := FindByUserIdOrderByCreatedAtDesc(t.galleries, t.nextGalleryId, userId);
    PageOfConverted(t, gs, page, size);
    ConvertPage(t, Paging.PageOf(gs, page, size))
  }

  /** A page of galleries with each gallery converted, page fields kept. */
  function ConvertPage(t: Tables, slice: Paging.Page<Gallery>): Paging.Page<GalleryDto> {
    Paging.Page(ConvertAll(t, slice.content), slice.totalElements, slice.totalPages, slice.size, slice.number)
  }

  /** Converting a slice is slicing the converted list. */
  lemma ConvertAllSlice(t: Tables, gs: seq<Gallery>, lo: nat, hi: nat)
    requires lo <= hi <= |gs|
    ensures ConvertAll(t, gs[lo..hi]) == ConvertAll(t, gs)[lo..hi]
  {
  }

  /** Converting a page of `gs` gives the same page of the converted list. */
  lemma PageOfConverted(t: Tables, gs: seq<Gallery>, page: nat, size: nat)
    requires size >= 1
    ensures ConvertPage(t, Paging.PageOf(gs, page, size)) == Paging.PageOf(ConvertAll(t, gs), page, size)
  {
    var all := ConvertAll(t, gs);
    var p := Paging.PageOf(gs, page, size);
    var q := Paging.PageOf(all, page, size);
    var start := page * size;
    if start < |gs| {
      var hi := Paging.Min(start + size, |gs|);
      ConvertAllSlice(t, gs, start, hi);
      assert p.content == gs[start..hi];
      assert q.content == all[start..hi];
    } else {
      assert p.content == [] && q.content == [];
    }
    assert ConvertPage(t, p).content == q.content;
  }

  /** Adding a gallery for an existing user under a name that user does not use
      yet, with the next identity, keeps the store valid. */
  lemma AddGalleryKeepsValid(t: Tables, g: Gallery)
    requires TablesValid(t)
    requires g.id == t.nextGalleryId && g.owner in t.users && !ExistsByNameAndUserId(t.galleries, g.name, g.owner)
    ensures g.id !in t.galleries
    ensures TablesValid(t.(galleries := t.galleries[g.id := g], nextGalleryId := g.id + 1))
  {
  }

  /** Renaming an owned gallery to its own name or to a name its owner does not
      use yet keeps the store valid. */
  lemma RenameGalleryKeepsValid(t: Tables, galleryId: nat, name: string, description: Option<string>)
    requires TablesValid(t) && galleryId in t.galleries
    requires t.galleries[galleryId].name == name || !ExistsByNameAndUserId(t.galleries, name, t.galleries[galleryId].owner)
    ensures TablesValid(t.(galleries := t.galleries[galleryId := t.galleries[galleryId].(name := name, description := description)]))
  {
    var g := t.galleries[galleryId].(name := name, description := description);
    var gs := t.galleries[galleryId := g];
    forall a, b | a in gs && b in gs && a != b && gs[a].owner == gs[b].owner
      ensures gs[a].name != gs[b].name
    {
      if a == galleryId || b == galleryId {
        var other := if a == galleryId then b else a;
        assert t.galleries[other].owner == g.owner;
        if t.galleries[galleryId].name != name {
          assert t.galleries[other].name != name;
        }
      }
    }
  }

  /** Deleting a gallery, with its photos or unfiling them, keeps the store valid:
      no photo is left pointing at the removed gallery. */
  lemma DeleteGalleryKeepsValid(t: Tables, galleryId: nat, deletePhotos: bool)
    requires TablesValid(t)
    ensures TablesValid(t.(galleries := t.galleries - {galleryId},
                          photos := if deletePhotos then WithoutGalleryPhotos(t.photos, galleryId)
                                    else Unfiled(t.photos, galleryId)))
  {
  }

  /** createGallery: a new, empty gallery for an existing user whose galleries do
      not already use the name. */
  method CreateGallery(db: Database, name: string, description: Option<string>, userId: nat, now: Time)
    returns (r: Result<GalleryDto>)
    requires db.Valid()
    modifies db
    ensures db.Valid()
    ensures r == Err(NotFound) <==> userId !in old(db.users)
    ensures r == Err(Conflict(GalleryNameTaken)) <==>
              userId in old(db.users) && ExistsByNameAndUserId(old(db.galleries), name, userId)
    ensures r.Err? ==> db.Snapshot() == old(db.Snapshot())
    ensures r.Ok? ==>
              var id := old(db.nextGalleryId);
              && id !in old(db.galleries)
              && db.Snapshot() == old(db.Snapshot()).(galleries := old(db.galleries)[id := Gallery(id, name, description, userId, now, now)],
                                                      nextGalleryId := id + 1)
              && r.value == ConvertToDto(db.Snapshot(), db.galleries[id])
  {
    if userId !in db.users {
      return Err(NotFound);
    }
    if ExistsByNameAndUserId(db.galleries, name, userId) {
      return Err(Conflict(GalleryNameTaken));
    }
    var id := db.nextGalleryId;
    AddGalleryKeepsValid(db.Snapshot(), Gallery(id, name, description, userId, now, now));
    db.galleries := db.galleries[id := Gallery(id, name, description, userId, now, now)];
    db.nextGalleryId := id + 1;
    r := Ok(ConvertToDto(db.Snapshot(), db.galleries[id]));
  }

  /** updateGallery: renames an owned gallery and replaces its description; a
      new name already used by another of the user's galleries is refused,
      keeping the current name never is. */
  method UpdateGallery(db: Database, galleryId: nat, name: string, description: Option<string>, userId: nat)
    returns (r: Result<GalleryDto>)
    requires db.Valid()
    modifies db
    ensures db.Valid()
    ensures r == Err(NotFound) <==> FindByIdAndUserId(old(db.galleries), galleryId, userId).None?
    ensures r == Err(Conflict(GalleryNameTaken)) <==>
              && FindByIdAndUserId(old(db.galleries), galleryId, userId).Some?
              && old(db.galleries)[galleryId].name != name
              && ExistsByNameAndUserId(old(db.galleries), name, userId)
    ensures r.Err? ==> db.Snapshot() == old(db.Snapshot())
    ensures r.Ok? ==>
              && db.Snapshot() == old(db.Snapshot()).(galleries := old(db.galleries)[galleryId :=
                                    old(db.galleries)[galleryId].(name := name, description := description)])
              && r.value == ConvertToDto(db.Snapshot(), db.galleries[galleryId])
  {
    var found := FindByIdAndUserId(db.galleries, galleryId, userId);
    if found.None? {
      return Err(NotFound);
    }
    var g := found.value;
    if g.name != name && ExistsByNameAndUserId(db.galleries, name, userId) {
      return Err(Conflict(GalleryNameTaken));
    }
    RenameGalleryKeepsValid(db.Snapshot(), galleryId, name, description);
    db.galleries := db.galleries[galleryId := g.(name := name, description := description)];
    r := Ok(ConvertToDto(db.Snapshot(), db.galleries[galleryId]));
  }

  /** The photo table after deleting a gallery together with its photos. */
  function WithoutGalleryPhotos(photos: map<nat, Photo>, galleryId: nat): map<nat, Photo> {
    map k | k in photos && photos[k].gallery != Some(galleryId) :: photos[k]
  }

  /** The photo table after deleting a gallery but keeping its photos, unfiled. */
  function Unfiled(photos: map<nat, Photo>, galleryId: nat): map<nat, Photo> {
    map k | k in photos :: if photos[k].gallery == Some(galleryId) then photos[k].(gallery := None) else photos[k]
  }

  /** The photos the repository lists for a gallery are exactly the ones filed in
      it: removing them, or unfiling them, gives the two deletion outcomes. */
  lemma ListedPhotosAreGalleryPhotos(photos: map<nat, Photo>, galleryId: nat, bound: nat)
    requires forall k :: k in photos ==> k < bound
    ensures var ids := PhotoIdsOfGallery(photos, galleryId, bound);
            && photos - Members(ids) == WithoutGalleryPhotos(photos, galleryId)
            && (map k | k in photos :: if k in ids then photos[k].(gallery := None) else photos[k])
               == Unfiled(photos, galleryId)
  {
  }

  /** Both ways of deleting a gallery leave no photo filed in it and leave every
      other photo as it was; keeping the photos keeps every one of them and
      changes nothing but their gallery. */
  lemma DeleteGalleryOutcomes(photos: map<nat, Photo>, galleryId: nat)
    ensures forall k :: k in WithoutGalleryPhotos(photos, galleryId) ==> WithoutGalleryPhotos(photos, galleryId)[k].gallery != Some(galleryId)
    ensures forall k :: k in Unfiled(photos, galleryId) ==> Unfiled(photos, galleryId)[k].gallery != Some(galleryId)
    ensures forall k :: k in photos ==> (k in WithoutGalleryPhotos(photos, galleryId) <==> photos[k].gallery != Some(galleryId))
    ensures Unfiled(photos, galleryId).Keys == photos.Keys
    ensures forall k :: k in photos ==> Unfiled(photos, galleryId)[k].(gallery := photos[k].gallery) == photos[k]
    ensures forall k :: k in photos && photos[k].gallery != Some(galleryId) ==>
              WithoutGalleryPhotos(photos, galleryId)[k] == photos[k] && Unfiled(photos, galleryId)[k] == photos[k]
  {
  }

  /** deleteGallery: removes an owned gallery and either its photos or their
      link to it. */
  method DeleteGallery(db: Database, galleryId: nat, userId: nat, deletePhotos: bool) returns (r: Status)
    requires db.Valid()
    modifies db
    ensures db.Valid()
    ensures r == Failed(NotFound) <==> FindByIdAndUserId(old(db.galleries), galleryId, userId).None?
    ensures r.Failed? ==> r.error == NotFound && db.Snapshot() == old(db.Snapshot())
    ensures r == Done ==>
              db.Snapshot() == old(db.Snapshot()).(
                galleries := old(db.galleries) - {galleryId},
                photos := if deletePhotos then WithoutGalleryPhotos(old(db.photos), galleryId)
                          else Unfiled(old(db.photos), galleryId))
  {
    var found := FindByIdAndUserId(db.galleries, galleryId, userId);
    if found.None? {
      return Failed(NotFound);
    }
    DeleteGalleryKeepsValid(db.Snapshot(), galleryId, deletePhotos);
    var ids := PhotoIdsOfGallery(db.photos, galleryId, db.nextPhotoId);
    ListedPhotosAreGalleryPhotos(db.photos, galleryId, db.nextPhotoId);
    if deletePhotos {
      DeleteAll(db, ids);
    } else {
      SetGalleryAll(db, ids, None);
    }
    db.galleries := db.galleries - {galleryId};
    r := Done;
  }

  /** The ownership check of movePhotos, photo by photo: the first photo with no
      owner fails with an internal error, the first one of another user is
      refused. */
  function OwnershipCheck(photos: map<nat, Photo>, found: seq<nat>, userId: nat): (r: Status)
    requires forall i :: 0 <= i < |found| ==> found[i] in photos
    ensures r == Done <==> forall i :: 0 <= i < |found| ==> photos[found[i]].owner == Some(userId)
    ensures r.Failed? ==> r.error == Internal || r.error == Forbidden
  {
    if found == [] then Done
    else
      match photos[found[0]].owner
      case None => Failed(Internal)
      case Some(o) =>
        if o != userId then Failed(Forbidden)
        else
          var rest := OwnershipCheck(photos, found[1..], userId);
          assert forall i :: 1 <= i < |found| ==> found[i] == found[1..][i - 1];
          rest
  }

  /** The loop of movePhotos over the found photos: stops at the first photo
      that has no owner or another owner. */
  method CheckOwnership(photos: map<nat, Photo>, found: seq<nat>, userId: nat) returns (r: Status)
    requires forall i :: 0 <= i < |found| ==> found[i] in photos
    ensures r == OwnershipCheck(photos, found, userId)
  {
    var i := 0;
    while i < |found|
      invariant 0 <= i <= |found|
      invariant OwnershipCheck(photos, found, userId) == OwnershipCheck(photos, found[i..], userId)
    {
      assert found[i..][1..] == found[i + 1..];
      match photos[found[i]].owner
      case None => return Failed(Internal);
      case Some(o) =>
        if o != userId {
          return Failed(Forbidden);
        }
      i := i + 1;
    }
    return Done;
  }

  /** The photo table after moving the requested photos to `target` (None: unfiled). */
  function Reassigned(photos: map<nat, Photo>, ids: seq<nat>, target: Option<nat>): map<nat, Photo> {
    map k | k in photos :: if k in ids then photos[k].(gallery := target) else photos[k]
  }

  /** After a move every requested photo is filed under the target, keeping its
      other fields; no other photo changes and none is added or removed. */
  lemma ReassignedOutcome(photos: map<nat, Photo>, ids: seq<nat>, target: Option<nat>)
    ensures Reassigned(photos, ids, target).Keys == photos.Keys
    ensures forall k :: k in photos && k in ids ==>
              Reassigned(photos, ids, target)[k].gallery == target &&
              Reassigned(photos, ids, target)[k].(gallery := photos[k].gallery) == photos[k]
    ensures forall k :: k in photos && k !in ids ==> Reassigned(photos, ids, target)[k] == photos[k]
  {
  }

  /** Reassigning the found ids is reassigning the requested ones: ids that
      match no photo change nothing. */
  lemma ReassigningFoundIds(photos: map<nat, Photo>, photoIds: seq<nat>, target: Option<nat>)
    ensures (map k | k in photos :: if k in FindAllById(photos, photoIds) then photos[k].(gallery := target) else photos[k])
            == Reassigned(photos, photoIds, target)
  {
    var found := FindAllById(photos, photoIds);
    assert forall k :: k in photos ==> (k in found <==> k in photoIds);
  }

  /** Moving photos that all belong to the user into one of the user's
      galleries, or out of any gallery, keeps the store valid. */
  lemma MoveKeepsValid(t: Tables, found: seq<nat>, target: Option<nat>, userId: nat)
    requires TablesValid(t)
    requires forall i :: 0 <= i < |found| ==> found[i] in t.photos
    requires OwnershipCheck(t.photos, found, userId) == Done
    requires target.Some? ==> FindByIdAndUserId(t.galleries, target.value, userId).Some?
    ensures TablesValid(t.(photos := Reassigned(t.photos, found, target)))
  {
    forall k | k in t.photos && k in found ensures t.photos[k].owner == Some(userId) {
      var i :| 0 <= i < |found| && found[i] == k;
    }
  }

  /** movePhotos: every found photo must be the user's, and a target gallery
      must be the user's; only then are the photos moved, all at once. Requested
      ids that match no photo are ignored. */
  method MovePhotos(db: Database, photoIds: seq<nat>, target: Option<nat>, userId: nat) returns (r: Status)
    requires db.Valid()
    modifies db
    ensures db.Valid()
    ensures var verdict := OwnershipCheck(old(db.photos), FindAllById(old(db.photos), photoIds), userId);
            && (verdict.Failed? ==> r == verdict)
            && (verdict == Done && target.Some? && FindByIdAndUserId(old(db.galleries), target.value, userId).None? ==>
                  r == Failed(NotFound))
            && (r == Done <==> verdict == Done && (target.None? || FindByIdAndUserId(old(db.galleries), target.value, userId).Some?))
    ensures r.Failed? ==> db.Snapshot() == old(db.Snapshot())
    ensures r == Done ==> db.Snapshot() == old(db.Snapshot()).(photos := Reassigned(old(db.photos), photoIds, target))
  {
    var found := FindAllById(db.photos, photoIds);
    var verdict := CheckOwnership(db.photos, found, userId);
    if verdict.Failed? {
      return verdict;
    }
    if target.Some? && FindByIdAndUserId(db.galleries, target.value, userId).None? {
      return Failed(NotFound);
    }
    MoveKeepsValid(db.Snapshot(), found, target, userId);
    ReassigningFoundIds(db.photos, photoIds, target);
    SetGalleryAll(db, found, target);
    r := Done;
  }
}
