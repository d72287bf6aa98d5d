/** The account endpoints (/api/auth): sign-up, the current user's profile, the
    profile picture and the profile update. `principal` is the authenticated
    user's id, None for an unauthenticated request; `encode` is the password
    encoder, an opaque function of the raw password. */
module AuthController {
  import opened Wrappers
  import opened Entities
  import opened Text
  import opened Store

  /** existsByUsername. */
  predicate ExistsByUsername(users: map<nat, User>, username: string) {
    exists k :: k in users && users[k].username == Some(username)
  }

  /** existsByEmail. */
  predicate ExistsByEmail(users: map<nat, User>, email: string) {
    exists k :: k in users && users[k].email == Some(email)
  }

  /** An account with a fresh username and a fresh email, stored under the next
      id, keeps the store valid. */
  lemma AddUserKeepsValid(t: Tables, u: User)
    requires TablesValid(t)
    requires u.id == t.nextUserId && u.username.Some? && u.email.Some? && u.password.Some?
    requires !ExistsByUsername(t.users, u.username.value) && !ExistsByEmail(t.users, u.email.value)
    ensures t.nextUserId !in t.users
    ensures TablesValid(t.(users := t.users[u.id := u], nextUserId := u.id + 1))
  {
  }

  /** registerUser: a taken username is refused first, then a taken email; with
      neither, the account is saved with the encoded password. Both refusals are
      the 400 answers of the endpoint. */
  method RegisterUser(db: Database, username: string, email: string, password: string,
                      encode: string -> string, createdNow: Time, updatedNow: Time)
    returns (r: Status)
    requires db.Valid()
    modifies db
    ensures db.Valid()
    ensures r == Failed(Conflict(UsernameTaken)) <==> ExistsByUsername(old(db.users), username)
    ensures r == Failed(Conflict(EmailTaken)) <==>
              !ExistsByUsername(old(db.users), username) && ExistsByEmail(old(db.users), email)
    ensures r.Failed? ==> db.Snapshot() == old(db.Snapshot())
    ensures r == Done ==>
              var u := NewUserWith(username, email, encode(password), createdNow, updatedNow).(id := old(db.nextUserId));
              db.Snapshot() == old(db.Snapshot()).(users := old(db.users)[u.id := u], nextUserId := u.id + 1)
  {
    if ExistsByUsername(db.users, username) {
      return Failed(Conflict(UsernameTaken));
    }
    if ExistsByEmail(db.users, email) {
      return Failed(Conflict(EmailTaken));
    }
    var user := NewUserWith(username, email, password, createdNow, updatedNow);
    user := user.(password := Some(encode(user.password.value)));
    user := user.(id := db.nextUserId);
    AddUserKeepsValid(db.Snapshot(), user);
    db.users := db.users[user.id := user];
    db.nextUserId := user.id + 1;
    r := Done;
  }

  /** The registered account can be found by its username, and by nobody else's. */
  lemma RegisteredAccountIsUnique(t: Tables, username: string, email: string, encoded: string,
                                  createdNow: Time, updatedNow: Time)
    requires TablesValid(t)
    requires !ExistsByUsername(t.users, username) && !ExistsByEmail(t.users, email)
    ensures var u := NewUserWith(username, email, encoded, createdNow, updatedNow).(id := t.nextUserId);
            var after := t.users[u.id := u];
            forall k :: k in after && (after[k].username == Some(username) || after[k].email == Some(email)) ==> k == u.id
  {
  }

  /** The signed-in user, or Unauthorized without a principal and NotFound for
      a principal with no account. */
  function Account(users: map<nat, User>, principal: Option<nat>): (r: Result<User>)
    ensures r == Err(Unauthorized) <==> principal.None?
    ensures r == Err(NotFound) <==> principal.Some? && principal.value !in users
    ensures r.Ok? ==> principal.Some? && principal.value in users && r.value == users[principal.value]
  {
    match principal
    case None => Err(Unauthorized)
    case Some(id) => if id in users then Ok(users[id]) else Err(NotFound)
  }

  /** The body of the /me answer. */
  datatype UserProfile = UserProfile(
    id: nat,
    username: Option<string>,
    email: Option<string>,
    hasProfilePicture: bool,
    profilePictureFilename: Option<string>,
    profilePictureContentType: Option<string>,
    profilePictureSize: Option<int>)

  /** A picture is on file when its bytes are present and not empty. */
  predicate HasPicture(u: User) {
    u.pictureData.Some? && |u.pictureData.value| > 0
  }

  /** getCurrentUser: 401, 404, or the account's identity and picture fields. */
  function GetCurrentUser(users: map<nat, User>, principal: Option<nat>): (r: Result<UserProfile>)
    ensures r.Err? <==> Account(users, principal).Err?
    ensures r.Err? ==> r.error == Account(users, principal).error
    ensures r.Ok? ==>
              var u := users[principal.value];
              && r.value.id == u.id && r.value.username == u.username && r.value.email == u.email
              && (r.value.hasProfilePicture <==> u.pictureData.Some? && |u.pictureData.value| > 0)
              && r.value.profilePictureFilename == u.pictureFilename
              && r.value.profilePictureContentType == u.pictureContentType
              && r.value.profilePictureSize == u.pictureSize
  {
    match Account(users, principal)
    case Err(e) => Err(e)
    case Ok(u) =>
      Ok(UserProfile(u.id, u.username, u.email, HasPicture(u), u.pictureFilename, u.pictureContentType, u.pictureSize))
  }

  /** The picture answer: its media type and its bytes. */
  datatype Picture = Picture(contentType: string, data: Bytes)

  /** getProfilePicture: 401, 404 for no account, 404 for absent or empty
      bytes; a picture stored without a content type makes the media-type
      parse throw (Internal). */
  function GetProfilePicture(users: map<nat, User>, principal: Option<nat>): (r: Result<Picture>)
    ensures Account(users, principal).Err? ==> r == Err(Account(users, principal).error)
    ensures Account(users, principal).Ok? && !HasPicture(users[principal.value]) ==> r == Err(NotFound)
    ensures r.Ok? <==>
              && Account(users, principal).Ok? && HasPicture(users[principal.value])
              && users[principal.value].pictureContentType.Some?
    ensures r.Ok? ==> r.value == Picture(users[principal.value].pictureContentType.value,
                                         users[principal.value].pictureData.value)
  {
    match Account(users, principal)
    case Err(e) => Err(e)
    case Ok(u) =>
      if !HasPicture(u) then Err(NotFound)
      else if u.pictureContentType.None? then Err(Internal)
      else Ok(Picture(u.pictureContentType.value, u.pictureData.value))
  }

  /** The collision checks of updateProfile: a username, then an email, that
      differs from the user's own and already exists. */
  function ProfileConflict(users: map<nat, User>, u: User, username: string, email: string): (r: Status)
    ensures r == Failed(Conflict(UsernameTaken)) <==> u.username != Some(username) && ExistsByUsername(users, username)
    ensures r == Failed(Conflict(EmailTaken)) <==>
              && !(u.username != Some(username) && ExistsByUsername(users, username))
              && u.email != Some(email) && ExistsByEmail(users, email)
    ensures r.Done? || r == Failed(Conflict(UsernameTaken)) || r == Failed(Conflict(EmailTaken))
  {
    if u.username != Some(username) && ExistsByUsername(users, username) then Failed(Conflict(UsernameTaken))
    else if u.email != Some(email) && ExistsByEmail(users, email) then Failed(Conflict(EmailTaken))
    else Done
  }

  /** Submitting one's own username and email never conflicts, and under the
      unique constraints a conflict means another account holds the value. */
  lemma ProfileConflictIsAnotherAccount(users: map<nat, User>, id: nat, username: string, email: string)
    requires id in users && UniqueAccounts(users)
    ensures users[id].username.Some? && users[id].email.Some? ==>
              ProfileConflict(users, users[id], users[id].username.value, users[id].email.value) == Done
    ensures ProfileConflict(users, users[id], username, email) == Failed(Conflict(UsernameTaken)) <==>
              exists k :: k in users && k != id && users[k].username == Some(username)
    ensures ProfileConflict(users, users[id], username, email).Done? <==>
              && !(exists k :: k in users && k != id && users[k].username == Some(username))
              && !(exists k :: k in users && k != id && users[k].email == Some(email))
  {
    if exists k :: k in users && k != id && users[k].username == Some(username) {
      var k :| k in users && k != id && users[k].username == Some(username);
      assert users[id].username != users[k].username;
    }
    if exists k :: k in users && k != id && users[k].email == Some(email) {
      var k :| k in users && k != id && users[k].email == Some(email);
      assert users[id].email != users[k].email;
    }
  }

  /** The account after updateProfile's setters: new username and email, the
      password re-encoded only when one is given and not blank, and the
      picture cleared (no part), replaced (a non-empty part) or kept (an empty
      part). */
  function ApplyProfile(u: User, username: string, email: string, password: Option<string>,
                        picture: Option<Upload>, encode: string -> string): User
  {
    var named := u.(username := Some(username), email := Some(email));
    var secured := if password.Some? && !IsBlank(password.value) then named.(password := Some(encode(password.value)))
                   else named;
    match picture
    case None =>
      secured.(pictureData := None, pictureFilename := None, pictureContentType := None, pictureSize := None)
    case Some(file) =>
      if !file.IsEmpty() then
        secured.(pictureFilename := file.originalFilename, pictureContentType := file.contentType,
                 pictureSize := Some(file.Size()), pictureData := Some(file.bytes))
      else secured
  }

  /** What the profile update changes, field by field. */
  lemma ApplyProfileFields(u: User, username: string, email: string, password: Option<string>,
                           picture: Option<Upload>, encode: string -> string)
    ensures var v := ApplyProfile(u, username, email, password, picture, encode);
            && v.id == u.id && v.createdAt == u.createdAt && v.updatedAt == u.updatedAt
            && v.username == Some(username) && v.email == Some(email)
            && (password.Some? && !IsBlank(password.value) ==> v.password == Some(encode(password.value)))
            && (password.None? || IsBlank(password.value) ==> v.password == u.password)
            && (picture.None? ==>
                  v.pictureData.None? && v.pictureFilename.None? && v.pictureContentType.None? && v.pictureSize.None?)
            && (picture.Some? && !picture.value.IsEmpty() ==>
                  && v.pictureData == Some(picture.value.bytes) && v.pictureSize == Some(|picture.value.bytes|)
                  && v.pictureFilename == picture.value.originalFilename
                  && v.pictureContentType == picture.value.contentType)
            && (picture.Some? && picture.value.IsEmpty() ==>
                  && v.pictureData == u.pictureData && v.pictureSize == u.pictureSize
                  && v.pictureFilename == u.pictureFilename && v.pictureContentType == u.pictureContentType)
  {
  }

  /** Resubmitting one's own username and email with no new password and an
      empty picture part, or no part while the account has no picture,
      changes no field, so the save leaves the account as it was. */
  lemma UnchangedProfileKeepsAccount(u: User, password: Option<string>, picture: Option<Upload>,
                                     encode: string -> string, now: Time)
    requires u.username.Some? && u.email.Some?
    requires password.None? || IsBlank(password.value)
    requires || (picture.Some? && picture.value.IsEmpty())
             || (picture.None? && u.pictureData.None? && u.pictureFilename.None? &&
                 u.pictureContentType.None? && u.pictureSize.None?)
    ensures FlushUpdate(u, ApplyProfile(u, u.username.value, u.email.value, password, picture, encode), now) == u
  {
    ApplyProfileFields(u, u.username.value, u.email.value, password, picture, encode);
  }

  /** Saving the updated account keeps the store valid when the checks passed. */
  lemma ProfileUpdateKeepsValid(t: Tables, id: nat, username: string, email: string, password: Option<string>,
                                picture: Option<Upload>, encode: string -> string, now: Time)
    requires TablesValid(t) && id in t.users
    requires ProfileConflict(t.users, t.users[id], username, email) == Done
    ensures TablesValid(t.(users := t.users[id := FlushUpdate(t.users[id], ApplyProfile(t.users[id], username, email, password,
                                                                         picture, encode), now)]))
  {
    var u := t.users[id];
    var v := FlushUpdate(u, ApplyProfile(u, username, email, password, picture, encode), now);
    ApplyProfileFields(u, username, email, password, picture, encode);
    ProfileConflictIsAnotherAccount(t.users, id, username, email);
    var after := t.users[id := v];
    forall a, b | a in after && b in after && a != b
      ensures after[a].username != after[b].username && after[a].email != after[b].email
    {
      if a == id {
        assert after[b] == t.users[b];
      } else if b == id {
        assert after[a] == t.users[a];
      }
    }
  }

  /** updateProfile: 401 and 404 as above, then the two collision checks; a
      rejection saves nothing; otherwise the setters, then the save, which
      refreshes updatedAt when some field changed. */
  method UpdateProfile(db: Database, username: string, email: string, password: Option<string>,
                       picture: Option<Upload>, principal: Option<nat>, encode: string -> string, now: Time)
    returns (r: Status)
    requires db.Valid()
    modifies db
    ensures db.Valid()
    ensures Account(old(db.users), principal).Err? ==>
              r == Failed(Account(old(db.users), principal).error)
    ensures Account(old(db.users), principal).Ok? ==>
              r == ProfileConflict(old(db.users), old(db.users)[principal.value], username, email)
    ensures r.Failed? ==> db.Snapshot() == old(db.Snapshot())
    ensures r == Done ==>
              && principal.Some?
              && db.Snapshot() == old(db.Snapshot()).(users := old(db.users)[principal.value :=
                                    FlushUpdate(old(db.users)[principal.value],
                                                ApplyProfile(old(db.users)[principal.value], username, email,
                                                           password, picture, encode), now)])
  {
    var account := Account(db.users, principal);
    if account.Err? {
      return Failed(account.error);
    }
    var id := principal.value;
    var user := account.value;
    var verdict := ProfileConflict(db.users, user, username, email);
    if verdict.Failed? {
      return verdict;
    }
    ProfileUpdateKeepsValid(db.Snapshot(), id, username, email, password, picture, encode, now);
    user := user.(username := Some(username));
    user := user.(email := Some(email));
    if password.Some? && !IsBlank(password.value) {
      user := user.(password := Some(encode(password.value)));
    }
    if picture.None? {
      user := user.(pictureData := None);
      user := user.(pictureFilename := None);
      user := user.(pictureContentType := None);
      user := user.(pictureSize := None);
    } else if !picture.value.IsEmpty() {
      user := user.(pictureFilename := picture.value.originalFilename);
      user := user.(pictureContentType := picture.value.contentType);
      user := user.(pictureSize := Some(picture.value.Size()));
      user := user.(pictureData := Some(picture.value.bytes));
    }
    db.users := db.users[id := FlushUpdate(account.value, user, now)];
    r := Done;
  }
}
