/** The front end's session store: the signed-in user, the token held in
    memory and its persisted copy under the "token" key, with the guards login
    applies to a token. The clock (`nowMs`, milliseconds) and the token payload
    parser are parameters. */
module AuthStore {
  import opened Wrappers
  import opened Text
  import opened Jwt

  datatype ClientUser = ClientUser(id: int, username: string, email: string)

  /** A token ref is truthy when it is present and not the empty string. */
  predicate Held(token: Option<string>) {
    token.Some? && token.value != ""
  }

  /** getAuthHeaders: a bearer Authorization header exactly when a token is held. */
  function AuthHeaders(token: Option<string>): (h: map<string, string>)
    ensures "Authorization" in h <==> Held(token)
    ensures Held(token) ==> h["Authorization"] == "Bearer " + token.value
    ensures forall k :: k in h ==> k == "Authorization"
  {
    if Held(token) then map["Authorization" := "Bearer " + token.value] else map[]
  }

  /** getCurrentUserId: the token's user id, None without a token. */
  function CurrentUserId(token: Option<string>, parse: string -> Option<JwtPayload>): (r: Option<int>)
    ensures !Held(token) ==> r.None?
    ensures Held(token) ==> r == UserIdFromToken(token.value, parse)
  {
    if Held(token) then UserIdFromToken(token.value, parse) else None
  }

  /** The message login throws for a token, or None when it accepts it: an
      expired token first, then a token whose user id is absent, zero or not
      the given user's. */
  function LoginRejection(userData: ClientUser, authToken: string, parse: string -> Option<JwtPayload>,
                          nowMs: nat): (m: Option<string>)
    ensures m.None? <==>
              && !IsTokenExpired(authToken, parse, nowMs)
              && UserIdFromToken(authToken, parse) == Some(userData.id) && userData.id != 0
    ensures IsTokenExpired(authToken, parse, nowMs) ==> m == Some("Token is expired")
  {
    if IsTokenExpired(authToken, parse, nowMs) then Some("Token is expired")
    else
      var userId := UserIdFromToken(authToken, parse);
      if userId.None? || userId.value == 0 || userId.value != userData.id then
        Some("Token user ID does not match provided user data")
      else None
  }

  /** The empty string is never a token: it is a single part, so it has no payload. */
  lemma EmptyTokenHasNoPayload(parse: string -> Option<JwtPayload>)
    ensures DecodeJwt("", parse).None?
  {
    assert Split("", '.') == [""];
  }

  /** A token login accepts is held, is not expired at that instant, and
      names the user it was accepted for. */
  lemma AcceptedTokenAuthenticates(userData: ClientUser, authToken: string,
                                   parse: string -> Option<JwtPayload>, nowMs: nat)
    requires LoginRejection(userData, authToken, parse, nowMs).None?
    ensures Held(Some(authToken))
    ensures CurrentUserId(Some(authToken), parse) == Some(userData.id)
  {
    if authToken == "" {
      EmptyTokenHasNoPayload(parse);
      assert false;
    }
  }

  class Store {
    var user: Option<ClientUser>
    var token: Option<string>
    /** localStorage's "token" entry. */
    var storedToken: Option<string>
    /** sessionStorage's entries. */
    var session: map<string, string>
    /** The value the `isAuthenticated` computed holds, None while it is stale.
        Its only reactive dependency is the token ref, so only a change of the
        token makes it stale; the clock is read only when it is recomputed. */
    var cachedAuth: Option<bool>

    /** A held value is the one a recomputation would give, as far as the
        token goes: true exactly when a token is held. */
    ghost predicate Valid()
      reads this
    {
      cachedAuth.Some? ==> (cachedAuth.value <==> Held(token))
    }

    /** The token ref starts from the persisted token; the computed has not
        been evaluated yet. */
    constructor (persisted: Option<string>, sessionEntries: map<string, string>)
      ensures Valid()
      ensures user.None? && token == persisted && storedToken == persisted && session == sessionEntries
      ensures cachedAuth.None?
    {
      user := None;
      token := persisted;
      storedToken := persisted;
      session := sessionEntries;
      cachedAuth := None;
    }

    /** logout: the user, the token, its persisted copy and the session storage
        are all cleared; clearing a held token makes the computed stale. */
    method Logout()
      requires Valid()
      modifies this
      ensures Valid()
      ensures user.None? && token.None? && storedToken.None? && session == map[]
      ensures cachedAuth == if old(token).None? then old(cachedAuth) else None
    {
      if token.Some? {
        cachedAuth := None;
      }
      user := None;
      token := None;
      storedToken := None;
      session := map[];
    }

    /** Reading isAuthenticated. A held value is returned as it is, whatever
        the clock says. A stale one is recomputed: false without a token;
        false, and a logout, for an expired token; true otherwise. */
    method IsAuthenticated(parse: string -> Option<JwtPayload>, nowMs: nat) returns (b: bool)
      requires Valid()
      modifies this
      ensures Valid()
      ensures b ==> Held(token)
      ensures old(cachedAuth).Some? ==>
                && b == old(cachedAuth).value
                && user == old(user) && token == old(token) && storedToken == old(storedToken)
                && session == old(session) && cachedAuth == old(cachedAuth)
      ensures old(cachedAuth).None? ==>
                && (b <==> Held(old(token)) && !IsTokenExpired(old(token).value, parse, nowMs))
                && cachedAuth == Some(b)
      ensures old(cachedAuth).None? && Held(old(token)) && IsTokenExpired(old(token).value, parse, nowMs) ==>
                user.None? && token.None? && storedToken.None? && session == map[]
      ensures old(cachedAuth).None? && !(Held(old(token)) && IsTokenExpired(old(token).value, parse, nowMs)) ==>
                user == old(user) && token == old(token) && storedToken == old(storedToken) && session == old(session)
    {
      if cachedAuth.Some? {
        return cachedAuth.value;
      }
      if !Held(token) {
        cachedAuth := Some(false);
        return false;
      }
      if IsTokenExpired(token.value, parse, nowMs) {
        Logout();
        // The logout inside the getter clears the token it depends on; the
        // value it would recompute to without a token is false as well.
        cachedAuth := Some(false);
        return false;
      }
      cachedAuth := Some(true);
      return true;
    }

    /** login: a rejected token throws and changes nothing; an accepted one is
        kept, persisted, and its user stored. A new token makes the computed
        stale. */
    method Login(userData: ClientUser, authToken: string, parse: string -> Option<JwtPayload>, nowMs: nat)
      returns (r: Completion<()>)
      requires Valid()
      modifies this
      ensures Valid()
      ensures r.Threw? <==> LoginRejection(userData, authToken, parse, nowMs).Some?
      ensures r.Threw? ==>
                && r.message == LoginRejection(userData, authToken, parse, nowMs)
                && user == old(user) && token == old(token) && storedToken == old(storedToken)
                && session == old(session) && cachedAuth == old(cachedAuth)
      ensures r.Returned? ==>
                && user == Some(userData) && token == Some(authToken) && storedToken == Some(authToken)
                && session == old(session)
                && cachedAuth == if old(token) == Some(authToken) then old(cachedAuth) else None
    {
      if IsTokenExpired(authToken, parse, nowMs) {
        return Threw(Some("Token is expired"));
      }
      var userId := UserIdFromToken(authToken, parse);
      if userId.None? || userId.value == 0 || userId.value != userData.id {
        return Threw(Some("Token user ID does not match provided user data"));
      }
      AcceptedTokenAuthenticates(userData, authToken, parse, nowMs);
      if token != Some(authToken) {
        cachedAuth := None;
      }
      user := Some(userData);
      token := Some(authToken);
      storedToken := Some(authToken);
      r := Returned(());
    }

    /** setUser: the user ref is not a dependency of the computed. */
    method SetUser(userData: ClientUser)
      requires Valid()
      modifies this
      ensures Valid()
      ensures user == Some(userData) && token == old(token) && storedToken == old(storedToken)
      ensures session == old(session) && cachedAuth == old(cachedAuth)
    {
      user := Some(userData);
    }
  }
}
