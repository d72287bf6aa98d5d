/** The three persistent records (Photo, User, Gallery) and the uploaded-file
    value that the services take apart. Java's nullable references are Options. */
module Entities {
  import opened Wrappers
  import opened Text

  newtype byte = x: int | 0 <= x < 256

  type Bytes = seq<byte>

  /** An instant read from the server clock; only used for comparisons. */
  type Time = int

  /** The 8 MiB cap on one stored image. */
  const MaxImageBytes: nat := 8 * 1024 * 1024

  /** An unsaved record carries id 0; saving assigns the next identity. */
  const Unsaved: nat := 0

  datatype Photo = Photo(
    id: nat,
    title: string,
    description: Option<string>,
    originalFilename: Option<string>,
    contentType: Option<string>,
    size: Option<int>,
    data: Option<Bytes>,
    owner: Option<nat>,      // the owning user's id; the column is NOT NULL
    gallery: Option<nat>,    // None means "unorganized"
    createdAt: Option<Time>)

  /** The column constraints declared on Photo's title, description, filename,
      content type and owner: a non-blank title of at most 255 characters,
      bounded description, filename and content type, and an owner. The NOT NULL
      created_at column is not among them: nothing here sets createdAt. */
  predicate PhotoInvariant(p: Photo) {
    && !IsBlank(p.title) && |p.title| <= 255
    && (p.description.Some? ==> |p.description.value| <= 500)
    && (p.originalFilename.Some? ==> |p.originalFilename.value| <= 255)
    && (p.contentType.Some? ==> |p.contentType.value| <= 100)
    && p.owner.Some?
  }

  /** `new Photo()`: every field null; the services then fill it with setters. */
  function BlankPhoto(): Photo {
    Photo(Unsaved, [], None, None, None, None, None, None, None, None)
  }

  datatype User = User(
    id: nat,
    username: Option<string>,
    email: Option<string>,
    password: Option<string>,      // the encoded password
    createdAt: Option<Time>,
    updatedAt: Option<Time>,
    pictureFilename: Option<string>,
    pictureContentType: Option<string>,
    pictureSize: Option<int>,
    pictureData: Option<Bytes>)

  /** The column constraints declared on User (uniqueness is a table property,
      see Store.UniqueAccounts). */
  predicate UserInvariant(u: User) {
    && u.username.Some? && !IsBlank(u.username.value) && 3 <= |u.username.value| <= 50
    && u.email.Some? && !IsBlank(u.email.value)
    && u.password.Some? && !IsBlank(u.password.value) && 6 <= |u.password.value| <= 120
  }

  /** `new User()`: reads the clock twice, once per timestamp. */
  function NewUser(createdNow: Time, updatedNow: Time): (u: User)
    ensures u.createdAt == Some(createdNow) && u.updatedAt == Some(updatedNow)
    ensures u.username.None? && u.email.None? && u.password.None?
    ensures u.pictureData.None? && u.pictureFilename.None?
  {
    User(Unsaved, None, None, None, Some(createdNow), Some(updatedNow), None, None, None, None)
  }

  /** `new User(username, email, password)`: the no-argument constructor, then
      the three given fields. */
  function NewUserWith(username: string, email: string, password: string,
                       createdNow: Time, updatedNow: Time): (u: User)
    ensures u.username == Some(username) && u.email == Some(email) && u.password == Some(password)
    ensures u.createdAt == Some(createdNow) && u.updatedAt == Some(updatedNow)
    ensures u.pictureData.None?
  {
    NewUser(createdNow, updatedNow).(username := Some(username), email := Some(email),
                                    password := Some(password))
  }

  /** The @PreUpdate hook: refreshes updatedAt. */
  function PreUpdate(u: User, now: Time): User {
    u.(updatedAt := Some(now))
  }

  /** preUpdate touches nothing but updatedAt; in particular createdAt survives. */
  lemma PreUpdateOnlyStamps(u: User, now: Time)
    ensures PreUpdate(u, now).updatedAt == Some(now)
    ensures PreUpdate(u, now).createdAt == u.createdAt
    ensures PreUpdate(u, now).(updatedAt := u.updatedAt) == u
    ensures UserInvariant(PreUpdate(u, now)) == UserInvariant(u)
  {
  }

  /** Saving a loaded user: the flush writes the row, and so runs the
      @PreUpdate hook, only when some field differs from what was loaded. */
  function FlushUpdate(loaded: User, u: User, now: Time): User {
    if u != loaded then PreUpdate(u, now) else loaded
  }

  /** A save that changes nothing keeps the row, updatedAt included; any
      change is stored with a fresh updatedAt and otherwise as given. */
  lemma FlushUpdateStampsOnlyChanges(loaded: User, u: User, now: Time)
    ensures u == loaded ==> FlushUpdate(loaded, u, now) == loaded
    ensures u != loaded ==>
              FlushUpdate(loaded, u, now).updatedAt == Some(now) &&
              FlushUpdate(loaded, u, now).(updatedAt := u.updatedAt) == u
    ensures FlushUpdate(loaded, u, now).createdAt == u.createdAt
    ensures UserInvariant(FlushUpdate(loaded, u, now)) == UserInvariant(u)
  {
  }

  /** The Gallery record as the services use it (its entity class is not part
      of this model). */
  datatype Gallery = Gallery(
    id: nat,
    name: string,
    description: Option<string>,
    owner: nat,
    createdAt: Time,
    updatedAt: Time)

  /** An uploaded multipart file; its size is the length of its bytes. */
  datatype Upload = Upload(originalFilename: Option<string>, contentType: Option<string>, bytes: Bytes)
  {
    function Size(): nat { |bytes| }
    predicate IsEmpty() { |bytes| == 0 }
  }
}
