/** The relational store as three in-memory tables keyed by identity, with one
    identity counter per table, and the integrity rules every operation keeps. */
module Store {
  import opened Wrappers
  import opened Entities

  /** Every stored user sits under its own id, below the counter, with its
      three required account fields present. */
  ghost predicate UserTable(users: map<nat, User>, next: nat) {
    forall k :: k in users ==>
      && users[k].id == k && 0 < k < next
      && users[k].username.Some? && users[k].email.Some? && users[k].password.Some?
  }

  /** The unique constraints on username and email. */
  ghost predicate UniqueAccounts(users: map<nat, User>) {
    forall a, b :: a in users && b in users && a != b ==>
      users[a].username != users[b].username && users[a].email != users[b].email
  }

  ghost predicate GalleryTable(galleries: map<nat, Gallery>, next: nat, users: map<nat, User>) {
    forall k :: k in galleries ==>
      galleries[k].id == k && 0 < k < next && galleries[k].owner in users
  }

  /** The (name, user) pair of a gallery is unique. */
  ghost predicate UniqueGalleryNames(galleries: map<nat, Gallery>) {
    forall a, b :: a in galleries && b in galleries && a != b && galleries[a].owner == galleries[b].owner ==>
      galleries[a].name != galleries[b].name
  }

  /** A photo's owner exists; a photo's gallery exists and has the same owner. */
  ghost predicate PhotoTable(photos: map<nat, Photo>, next: nat,
                             users: map<nat, User>, galleries: map<nat, Gallery>) {
    forall k :: k in photos ==>
      && photos[k].id == k && 0 < k < next
      && (photos[k].owner.Some? ==> photos[k].owner.value in users)
      && (photos[k].gallery.Some? ==>
            photos[k].gallery.value in galleries &&
            photos[k].owner == Some(galleries[photos[k].gallery.value].owner))
  }

  /** A snapshot of the whole store: the three tables and their identity counters. */
  datatype Tables = Tables(
    users: map<nat, User>,
    photos: map<nat, Photo>,
    galleries: map<nat, Gallery>,
    nextUserId: nat,
    nextPhotoId: nat,
    nextGalleryId: nat)

  /** The integrity rules of the store, each kept by every operation. */
  ghost predicate TablesValid(t: Tables) {
    && t.nextUserId >= 1 && t.nextPhotoId >= 1 && t.nextGalleryId >= 1
    && UserTable(t.users, t.nextUserId) && UniqueAccounts(t.users)
    && GalleryTable(t.galleries, t.nextGalleryId, t.users) && UniqueGalleryNames(t.galleries)
    && PhotoTable(t.photos, t.nextPhotoId, t.users, t.galleries)
  }

  class Database {
    var users: map<nat, User>
    var photos: map<nat, Photo>
    var galleries: map<nat, Gallery>
    var nextUserId: nat
    var nextPhotoId: nat
    var nextGalleryId: nat

    function Snapshot(): Tables
      reads this
    {
      Tables(users, photos, galleries, nextUserId, nextPhotoId, nextGalleryId)
    }

    ghost predicate Valid()
      reads this
    {
      TablesValid(Snapshot())
    }

    /** Empty tables; identities start at 1. */
    constructor ()
      ensures Valid()
      ensures Snapshot() == Tables(map[], map[], map[], 1, 1, 1)
    {
      users, photos, galleries := map[], map[], map[];
      nextUserId, nextPhotoId, nextGalleryId := 1, 1, 1;
    }
  }
}
