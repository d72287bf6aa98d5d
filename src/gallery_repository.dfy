/** The gallery queries (derived and JPQL) as functions over the tables. Queries
    that scan a table take the table's identity counter as `bound`: every
    stored id is below it (Store.GalleryTable, Store.PhotoTable). */
module GalleryRepository {
  import opened Wrappers
  import opened Entities

  /** findByIdAndUserId: the gallery with that id, only if that user owns it. */
  function FindByIdAndUserId(galleries: map<nat, Gallery>, id: nat, userId: nat): (r: Option<Gallery>)
    ensures r.Some? <==> id in galleries && galleries[id].owner == userId
    ensures r.Some? ==> r.value == galleries[id]
  {
    if id in galleries && galleries[id].owner == userId then Some(galleries[id]) else None
  }

  /** existsByNameAndUserId: some gallery of that user has exactly that name. */
  predicate ExistsByNameAndUserId(galleries: map<nat, Gallery>, name: string, userId: nat) {
    exists k :: k in galleries && galleries[k].name == name && galleries[k].owner == userId
  }

  /** A gallery never collides with its own name under its own owner, and a
      name used only by other users is free. */
  lemma ExistsByNameIsPerUser(galleries: map<nat, Gallery>, name: string, userId: nat, k: nat)
    requires k in galleries
    ensures galleries[k].owner == userId && galleries[k].name == name ==>
              ExistsByNameAndUserId(galleries, name, userId)
    ensures (forall j :: j in galleries && galleries[j].name == name ==> galleries[j].owner != userId) ==>
              !ExistsByNameAndUserId(galleries, name, userId)
  {
  }

  ghost predicate Distinct(s: seq<nat>) {
    forall i, j :: 0 <= i < j < |s| ==> s[i] != s[j]
  }

  ghost predicate NewestFirst(galleries: map<nat, Gallery>, s: seq<nat>)
    requires forall i :: 0 <= i < |s| ==> s[i] in galleries
  {
    forall i, j :: 0 <= i < j < |s| ==> galleries[s[i]].createdAt >= galleries[s[j]].createdAt
  }

  /** The ids below `bound` of the galleries `userId` owns, ascending. */
  function OwnedIdsBelow(galleries: map<nat, Gallery>, userId: nat, bound: nat): (ids: seq<nat>)
    ensures forall x :: x in ids ==> x < bound && x in galleries && galleries[x].owner == userId
    ensures forall k :: 0 <= k < bound && k in galleries && galleries[k].owner == userId ==> k in ids
    ensures Distinct(ids)
  {
    if bound == 0 then []
    else
      var before := OwnedIdsBelow(galleries, userId, bound - 1);
      if bound - 1 in galleries && galleries[bound - 1].owner == userId then before + [bound - 1] else before
  }

  /** Inserts `id` into a newest-first list, after every gallery at least as new. */
  function InsertNewestFirst(galleries: map<nat, Gallery>, id: nat, s: seq<nat>): (r: seq<nat>)
    requires id in galleries && forall i :: 0 <= i < |s| ==> s[i] in galleries
    requires NewestFirst(galleries, s) && Distinct(s) && id !in s
    ensures |r| == |s| + 1
    ensures forall x :: x in r <==> x == id || x in s
    ensures forall i :: 0 <= i < |r| ==> r[i] in galleries
    ensures NewestFirst(galleries, r) && Distinct(r)
  {
    if s == [] then [id]
    else if galleries[s[0]].createdAt >= galleries[id].createdAt then
      var rest := InsertNewestFirst(galleries, id, s[1..]);
      assert s[0] != id && s[0] !in s[1..];
      assert forall x :: x in rest ==> galleries[x].createdAt <= galleries[s[0]].createdAt;
      ConsNewestFirst(galleries, s[0], rest);
      [s[0]] + rest
    else
      [id] + s
  }

  /** Putting a gallery at least as new as every listed one, and not listed,
      in front of a newest-first list keeps it newest first and distinct. */
  lemma ConsNewestFirst(galleries: map<nat, Gallery>, x: nat, rest: seq<nat>)
    requires x in galleries && forall i :: 0 <= i < |rest| ==> rest[i] in galleries
    requires NewestFirst(galleries, rest) && Distinct(rest) && x !in rest
    requires forall y :: y in rest ==> galleries[y].createdAt <= galleries[x].createdAt
    ensures NewestFirst(galleries, [x] + rest) && Distinct([x] + rest)
  {
    var r := [x] + rest;
    forall i, j | 0 <= i < j < |r|
      ensures galleries[r[i]].createdAt >= galleries[r[j]].createdAt && r[i] != r[j]
    {
      assert r[j] == rest[j - 1];
      if i > 0 {
        assert r[i] == rest[i - 1];
      }
    }
  }

  function SortNewestFirst(galleries: map<nat, Gallery>, s: seq<nat>): (r: seq<nat>)
    requires forall i :: 0 <= i < |s| ==> s[i] in galleries
    requires Distinct(s)
    ensures |r| == |s|
    ensures forall x :: x in r <==> x in s
    ensures forall i :: 0 <= i < |r| ==> r[i] in galleries
    ensures NewestFirst(galleries, r) && Distinct(r)
  {
    if s == [] then []
    else InsertNewestFirst(galleries, s[0], SortNewestFirst(galleries, s[1..]))
  }

  /** findByUserIdOrderByCreatedAtDesc, as ids: exactly the user's galleries,
      each once, newest first. */
  function UserGalleryIdsNewestFirst(galleries: map<nat, Gallery>, bound: nat, userId: nat): (ids: seq<nat>)
    ensures forall i :: 0 <= i < |ids| ==> ids[i] < bound && ids[i] in galleries && galleries[ids[i]].owner == userId
    ensures forall k :: 0 <= k < bound && k in galleries && galleries[k].owner == userId ==> k in ids
    ensures Distinct(ids) && NewestFirst(galleries, ids)
  {
    SortNewestFirst(galleries, OwnedIdsBelow(galleries, userId, bound))
  }

  /** The rows stored under the given ids, in the ids' order. */
  function Lookup<T>(rows: map<nat, T>, ids: seq<nat>): (r: seq<T>)
    requires forall i :: 0 <= i < |ids| ==> ids[i] in rows
    ensures |r| == |ids| && forall i :: 0 <= i < |r| ==> r[i] == rows[ids[i]]
  {
    if ids == [] then [] else [rows[ids[0]]] + Lookup(rows, ids[1..])
  }

  /** findByUserIdOrderByCreatedAtDesc: one entry per gallery of that user,
      newest first. */
  function FindByUserIdOrderByCreatedAtDesc(galleries: map<nat, Gallery>, bound: nat, userId: nat): (r: seq<Gallery>)
    ensures var ids := UserGalleryIdsNewestFirst(galleries, bound, userId);
            |r| == |ids| && forall i :: 0 <= i < |r| ==> r[i] == galleries[ids[i]]
    ensures forall i :: 0 <= i < |r| ==> r[i] in galleries.Values && r[i].owner == userId
    ensures forall i, j :: 0 <= i < j < |r| ==> r[i].createdAt >= r[j].createdAt
    ensures forall k :: 0 <= k < bound && k in galleries && galleries[k].owner == userId ==> galleries[k] in r
  {
    var ids := UserGalleryIdsNewestFirst(galleries, bound, userId);
    var r := Lookup(galleries, ids);
    assert forall k :: 0 <= k < bound && k in galleries && galleries[k].owner == userId ==>
      exists i :: 0 <= i < |ids| && ids[i] == k && r[i] == galleries[k];
    r
  }

  /** The ids below `bound` of the photos in gallery `galleryId`, ascending:
      the photo order of the fetch-with-photos queries (ORDER BY p.id ASC). */
  function PhotoIdsOfGallery(photos: map<nat, Photo>, galleryId: nat, bound: nat): (ids: seq<nat>)
    ensures forall i :: 0 <= i < |ids| ==>
              ids[i] < bound && ids[i] in photos && photos[ids[i]].gallery == Some(galleryId)
    ensures forall k :: 0 <= k < bound && k in photos && photos[k].gallery == Some(galleryId) ==> k in ids
    ensures forall i, j :: 0 <= i < j < |ids| ==> ids[i] < ids[j]
  {
    if bound == 0 then []
    else
      var before := PhotoIdsOfGallery(photos, galleryId, bound - 1);
      if bound - 1 in photos && photos[bound - 1].gallery == Some(galleryId) then before + [bound - 1]
      else before
  }

  /** The set of ids a list holds. */
  function Members(s: seq<nat>): set<nat> {
    set x | x in s
  }

  /** A list without repetitions holds as many ids as it is long. */
  lemma {:induction false} DistinctCardinality(s: seq<nat>)
    requires Distinct(s)
    ensures |Members(s)| == |s|
  {
    if s != [] {
      var rest := s[1..];
      assert Distinct(rest) by {
        forall i, j | 0 <= i < j < |rest| ensures rest[i] != rest[j] {
          assert rest[i] == s[i + 1] && rest[j] == s[j + 1];
        }
      }
      DistinctCardinality(rest);
      assert s[0] !in rest by {
        forall i | 0 <= i < |rest| ensures rest[i] != s[0] {
          assert rest[i] == s[i + 1];
        }
      }
      assert Members(s) == {s[0]} + Members(rest) by {
        assert s == [s[0]] + rest;
      }
    }
  }

  /** COUNT(p) of the photo-count query: the photos below `bound` filed in the gallery. */
  function PhotoCount(photos: map<nat, Photo>, galleryId: nat, bound: nat): nat {
    if bound == 0 then 0
    else PhotoCount(photos, galleryId, bound - 1) +
         (if bound - 1 in photos && photos[bound - 1].gallery == Some(galleryId) then 1 else 0)
  }

  lemma {:induction false} PhotoCountIsListLength(photos: map<nat, Photo>, galleryId: nat, bound: nat)
    ensures PhotoCount(photos, galleryId, bound) == |PhotoIdsOfGallery(photos, galleryId, bound)|
  {
    if bound > 0 {
      PhotoCountIsListLength(photos, galleryId, bound - 1);
    }
  }

  /** Under the photo table's id bound, the query's list holds exactly the
      photos filed in the gallery, and the count is their number. */
  lemma PhotoCountIsGallerySize(photos: map<nat, Photo>, galleryId: nat, bound: nat)
    requires forall k :: k in photos ==> k < bound
    ensures Members(PhotoIdsOfGallery(photos, galleryId, bound)) ==
            (set k | k in photos && photos[k].gallery == Some(galleryId))
    ensures PhotoCount(photos, galleryId, bound) ==
            |set k | k in photos && photos[k].gallery == Some(galleryId)|
  {
    var ids := PhotoIdsOfGallery(photos, galleryId, bound);
    DistinctCardinality(ids);
    PhotoCountIsListLength(photos, galleryId, bound);
    assert Members(ids) == (set k | k in photos && photos[k].gallery == Some(galleryId));
  }

  /** The photos of a gallery, by ascending id. */
  function GalleryPhotos(photos: map<nat, Photo>, bound: nat, galleryId: nat): (r: seq<Photo>)
    ensures var ids := PhotoIdsOfGallery(photos, galleryId, bound);
            |r| == |ids| && forall i :: 0 <= i < |r| ==> r[i] == photos[ids[i]]
    ensures forall i :: 0 <= i < |r| ==> r[i].gallery == Some(galleryId)
  {
    Lookup(photos, PhotoIdsOfGallery(photos, galleryId, bound))
  }

  /** One row of findGalleriesWithPhotoCountByUserId. */
  datatype CountRow = CountRow(gallery: Gallery, photoCount: nat)

  function CountRows(galleries: map<nat, Gallery>, photos: map<nat, Photo>, photoBound: nat,
                     ids: seq<nat>): (rows: seq<CountRow>)
    requires forall i :: 0 <= i < |ids| ==> ids[i] in galleries
    ensures |rows| == |ids|
    ensures forall i :: 0 <= i < |rows| ==>
              rows[i].gallery == galleries[ids[i]] &&
              rows[i].photoCount == PhotoCount(photos, ids[i], photoBound)
  {
    if ids == [] then []
    else [CountRow(galleries[ids[0]], PhotoCount(photos, ids[0], photoBound))]
         + CountRows(galleries, photos, photoBound, ids[1..])
  }

  /** findGalleriesWithPhotoCountByUserId: one row per gallery of the user, a
      gallery without photos included with count 0 (LEFT JOIN), newest first. */
  function FindGalleriesWithPhotoCountByUserId(galleries: map<nat, Gallery>, galleryBound: nat,
                                               photos: map<nat, Photo>, photoBound: nat,
                                               userId: nat): (rows: seq<CountRow>)
    ensures forall i :: 0 <= i < |rows| ==> rows[i].gallery in galleries.Values && rows[i].gallery.owner == userId
    ensures forall i, j :: 0 <= i < j < |rows| ==> rows[i].gallery.createdAt >= rows[j].gallery.createdAt
    ensures forall k :: 0 <= k < galleryBound && k in galleries && galleries[k].owner == userId ==>
              exists i :: 0 <= i < |rows| && rows[i].gallery == galleries[k] &&
                          rows[i].photoCount == PhotoCount(photos, k, photoBound)
    ensures var ids := UserGalleryIdsNewestFirst(galleries, galleryBound, userId);
            |rows| == |ids| &&
            forall i :: 0 <= i < |rows| ==>
              rows[i].gallery == galleries[ids[i]] && rows[i].photoCount == PhotoCount(photos, ids[i], photoBound)
  {
    CountRows(galleries, photos, photoBound, UserGalleryIdsNewestFirst(galleries, galleryBound, userId))
  }

  /** findByIdAndUserIdWithFirstPhotos: the owned gallery with its photos by id. */
  function FindByIdAndUserIdWithFirstPhotos(galleries: map<nat, Gallery>, photos: map<nat, Photo>,
                                            photoBound: nat, id: nat, userId: nat): (r: Option<(Gallery, seq<Photo>)>)
    ensures r.Some? <==> FindByIdAndUserId(galleries, id, userId).Some?
    ensures r.Some? ==> r.value.0 == galleries[id] && r.value.1 == GalleryPhotos(photos, photoBound, id)
  {
    match FindByIdAndUserId(galleries, id, userId)
    case None => None
    case Some(g) => Some((g, GalleryPhotos(photos, photoBound, id)))
  }

  /** findGalleriesWithPhotosByUserId: the user's galleries newest first, each
      with its photos by ascending id. */
  function FindGalleriesWithPhotosByUserId(galleries: map<nat, Gallery>, galleryBound: nat,
                                           photos: map<nat, Photo>, photoBound: nat,
                                           userId: nat): (r: seq<(Gallery, seq<Photo>)>)
    ensures forall i :: 0 <= i < |r| ==> r[i].0.owner == userId
    ensures forall i, j :: 0 <= i < j < |r| ==> r[i].0.createdAt >= r[j].0.createdAt
    ensures forall i :: 0 <= i < |r| ==> forall j :: 0 <= j < |r[i].1| ==> r[i].1[j].gallery == Some(r[i].0.id)
    ensures var gs := FindByUserIdOrderByCreatedAtDesc(galleries, galleryBound, userId);
            |r| == |gs| &&
            forall i :: 0 <= i < |r| ==> r[i].0 == gs[i] && r[i].1 == GalleryPhotos(photos, photoBound, gs[i].id)
    ensures forall k :: 0 <= k < galleryBound && k in galleries && galleries[k].owner == userId ==>
              exists i :: 0 <= i < |r| && r[i].0 == galleries[k]
    ensures var ids := UserGalleryIdsNewestFirst(galleries, galleryBound, userId);
            |r| == |ids| &&
            forall i :: 0 <= i < |r| ==>
              r[i].0 == galleries[ids[i]] && r[i].1 == GalleryPhotos(photos, photoBound, galleries[ids[i]].id)
  {
    WithPhotos(photos, photoBound, FindByUserIdOrderByCreatedAtDesc(galleries, galleryBound, userId))
  }

  /** Each gallery paired with its photos. */
  function WithPhotos(photos: map<nat, Photo>, photoBound: nat, gs: seq<Gallery>): (r: seq<(Gallery, seq<Photo>)>)
    ensures |r| == |gs|
    ensures forall i :: 0 <= i < |r| ==> r[i].0 == gs[i] && r[i].1 == GalleryPhotos(photos, photoBound, gs[i].id)
  {
    if gs == [] then [] else [(gs[0], GalleryPhotos(photos, photoBound, gs[0].id))] + WithPhotos(photos, photoBound, gs[1..])
  }
}
