/** The back-office user authentication handlers of src/apps/controllers/apis/userAuth.js.
    Users share the token collection and the revocation list with customers. The handlers
    behind the user gates take the claims those gates would attach. */
module UserAuth {
  import opened Js
  import opened Codec
  import opened TokenRecords
  import opened Revocation
  import opened TokenService
  import opened Principals
  import opened Http

  datatype UserWorld = UserWorld(users: seq<User>, tokens: Tokens)

  datatype UserSession = UserSession(user: User, accessToken: string, cookie: Cookie)

  datatype UserLoginResult = UserLoginResult(reply: Reply, session: Option<UserSession>, world: UserWorld)

  const INVALID_CREDENTIALS: string := "Invalid credentials (Email or Password is wrong)"
  const USER_INTERNAL_ERROR: string := "Internal server error"

  /** `login`: an unknown email and a wrong password get the same 401; otherwise both tokens
      are minted from the stored user, stored (awaited), and returned with a one-day cookie. */
  function Login(w: UserWorld, email: string, passwordMatches: bool, nowMs: nat): (r: UserLoginResult)
    ensures UserByEmail(w.users, email).None? || !passwordMatches ==>
              r == UserLoginResult(Reply(401, INVALID_CREDENTIALS), None, w)
    ensures r.session.Some? <==> r.reply.status == 200
    ensures r.session.Some? ==>
              var u := UserByEmail(w.users, email).value;
              && r.session.value.user == UserView(u)
              && r.session.value.accessToken == GenerateAccessToken(UserPayload(u), nowMs)
              && r.session.value.cookie == Cookie(REFRESH_COOKIE, GenerateRefreshToken(UserPayload(u), nowMs), Some(ONE_DAY_MS))
              && FindRecord(r.world.tokens.records, u.id).Some?
  {
    match UserByEmail(w.users, email)
    case None => UserLoginResult(Reply(401, INVALID_CREDENTIALS), None, w)
    case Some(u) =>
      if !passwordMatches then UserLoginResult(Reply(401, INVALID_CREDENTIALS), None, w)
      else
        var p := UserPayload(u);
        var a := GenerateAccessToken(p, nowMs);
        var rt := GenerateRefreshToken(p, nowMs);
        var s := StoreUserToken(w.tokens, u.id, a, rt, nowMs);
        if s.outcome.Raised? then UserLoginResult(Reply(500, USER_INTERNAL_ERROR), None, UserWorld(w.users, s.state))
        else
          assert FindRecord(s.state.records, u.id).Some?;
          UserLoginResult(Reply(200, "User login successful"),
                          Some(UserSession(UserView(u), a, Cookie(REFRESH_COOKIE, rt, Some(ONE_DAY_MS)))),
                          UserWorld(w.users, s.state))
  }

  /** Login on a consistent state always succeeds for good credentials and leaves the new
      pair as the user's one record. */
  lemma LoginStores(w: UserWorld, email: string, nowMs: nat)
    requires Consistent(w.tokens)
    requires UserByEmail(w.users, email).Some?
    ensures var u := UserByEmail(w.users, email).value;
            var r := Login(w, email, true, nowMs);
            && r.reply == Reply(200, "User login successful")
            && Consistent(r.world.tokens)
            && FindRecord(r.world.tokens.records, u.id) == Some(TokenRecord(u.id, r.session.value.accessToken, r.session.value.cookie.value))
  {
    var u := UserByEmail(w.users, email).value;
    var p := UserPayload(u);
    IssuedCanonical(p, nowMs);
    StoreUserAgrees(w.tokens, u.id, GenerateAccessToken(p, nowMs), GenerateRefreshToken(p, nowMs), nowMs);
    StoreCustomerEffect(w.tokens, u.id, GenerateAccessToken(p, nowMs), GenerateRefreshToken(p, nowMs), nowMs, u.id, nowMs, AccessKey);
  }

  datatype UserLogoutResult = UserLogoutResult(reply: Reply, tokens: Tokens)

  /** `logout`: revoke the stored pair of the id in the attached claims; the record stays.
      A missing record ends in 500. */
  function Logout(tokens: Tokens, decoded: Token, nowMs: nat): (r: UserLogoutResult)
    ensures r.tokens.records == tokens.records
    ensures TokenId(decoded).None? ==> r == UserLogoutResult(Reply(500, USER_INTERNAL_ERROR), tokens)
    ensures r.reply.status == 200 <==> TokenId(decoded).Some? && AddTokenBlackList(tokens.records, tokens.revoked, TokenId(decoded).value, nowMs).outcome == Done
  {
    match TokenId(decoded)
    case None => UserLogoutResult(Reply(500, USER_INTERNAL_ERROR), tokens)
    case Some(id) =>
      var b := AddTokenBlackList(tokens.records, tokens.revoked, id, nowMs);
      if b.outcome.Raised? then UserLogoutResult(Reply(500, USER_INTERNAL_ERROR), Tokens(tokens.records, b.store))
      else UserLogoutResult(Reply(200, "User logged out successfully and tokens revoked"), Tokens(tokens.records, b.store))
  }

  /** Because the record is kept, logging out again succeeds and changes nothing further. */
  lemma LogoutRepeatable(tokens: Tokens, decoded: Token, nowMs: nat)
    requires Consistent(tokens)
    requires TokenId(decoded).Some? && FindRecord(tokens.records, TokenId(decoded).value).Some?
    ensures var once := Logout(tokens, decoded, nowMs);
            var twice := Logout(once.tokens, decoded, nowMs);
            && once.reply.status == 200 && twice.reply.status == 200
            && twice.tokens == once.tokens
  {
    var id := TokenId(decoded).value;
    FoundIsCanonical(tokens.records, id);
    BlacklistWrites(tokens.records, tokens.revoked, id, nowMs);
    var b := AddTokenBlackList(tokens.records, tokens.revoked, id, nowMs);
    BlacklistWrites(tokens.records, b.store, id, nowMs);
    BlacklistIdempotent(tokens.records, tokens.revoked, id, nowMs);
  }

  /** `refreshToken`: the user named by the attached claims is read again; 404 when gone,
      otherwise a new access token minted from the current document. */
  function RefreshToken(users: seq<User>, decoded: Token, nowMs: nat): (r: (Reply, Option<string>))
    ensures UserById(users, TokenId(decoded)).None? <==> r == (Reply(404, "User not found"), None)
    ensures r.1.Some? ==>
              && r.0.status == 200
              && Decode(r.1.value) == Some(SessionToken(AccessKey, UserPayload(UserById(users, TokenId(decoded)).value), nowMs))
  {
    match UserById(users, TokenId(decoded))
    case None => (Reply(404, "User not found"), None)
    case Some(u) => (Reply(200, "Access Token refreshed successfully"), Some(GenerateAccessToken(UserPayload(u), nowMs)))
  }

  /** A refreshed user token carries the role the user has now, not the one in the refresh
      token: a role change takes effect at the next refresh. */
  lemma RefreshUsesCurrentRole(users: seq<User>, decoded: Token, nowMs: nat)
    requires UserById(users, TokenId(decoded)).Some?
    ensures var u := UserById(users, TokenId(decoded)).value;
            var t := Decode(RefreshToken(users, decoded, nowMs).1.value).value;
            t.body.claims.role == (if u.role == "" then None else Some(u.role))
            && t.body.claims.id == Some(u.id)
  {
    UserClaims(UserById(users, TokenId(decoded)).value);
  }

  /** `getMe`: the user named by the attached claims, without the password, or 404. */
  function GetMe(users: seq<User>, decoded: Token): (r: (Reply, Option<User>))
    ensures r.1.Some? <==> UserById(users, TokenId(decoded)).Some?
    ensures r.1.Some? ==> r.1.value == UserView(UserById(users, TokenId(decoded)).value) && r.1.value.password.None?
    ensures r.1.None? ==> r.0 == Reply(404, "User not found")
  {
    match UserById(users, TokenId(decoded))
    case None => (Reply(404, "User not found"), None)
    case Some(u) => (Reply(200, "User information retrieved successfully"), Some(UserView(u)))
  }

  /** `getMe` and `refreshToken` look the user up the same way: for the same claims one
      answers 404 exactly when the other does, with the same reply. */
  lemma GetMeAgreesWithRefresh(users: seq<User>, decoded: Token, nowMs: nat)
    ensures GetMe(users, decoded).1.None? <==> RefreshToken(users, decoded, nowMs).1.None?
    ensures GetMe(users, decoded).1.None? ==> GetMe(users, decoded).0 == RefreshToken(users, decoded, nowMs).0
  {
  }

  /** Every stored user has its own `_id`, as MongoDB guarantees. */
  predicate DistinctIds(users: seq<User>) {
    forall i, j :: 0 <= i < j < |users| ==> users[i].id != users[j].id
  }

  /** After a successful login, `getMe` on the decoded access token returns the user who
      logged in, without the password: the same document the login returned. */
  lemma LoginThenGetMe(w: UserWorld, email: string, passwordMatches: bool, nowMs: nat)
    requires DistinctIds(w.users)
    requires Login(w, email, passwordMatches, nowMs).session.Some?
    ensures var r := Login(w, email, passwordMatches, nowMs);
            && Decode(r.session.value.accessToken).Some?
            && GetMe(r.world.users, Decode(r.session.value.accessToken).value)
               == (Reply(200, "User information retrieved successfully"), Some(r.session.value.user))
  {
    var u := UserByEmail(w.users, email).value;
    AccessTokenNamesUser(u, nowMs);
    DistinctIdFindsUser(w.users, u);
  }

  /** An access token minted for a user carries that user's id. */
  lemma AccessTokenNamesUser(u: User, nowMs: nat)
    ensures Decode(GenerateAccessToken(UserPayload(u), nowMs)).Some?
    ensures TokenId(Decode(GenerateAccessToken(UserPayload(u), nowMs)).value) == Some(u.id)
  {
    UserClaims(u);
  }

  /** With distinct ids, looking a stored user up by its own id finds that user. */
  lemma DistinctIdFindsUser(users: seq<User>, u: User)
    requires DistinctIds(users) && u in users
    ensures UserById(users, Some(u.id)) == Some(u)
  {
    var v := UserById(users, Some(u.id)).value;
    var i :| 0 <= i < |users| && users[i] == v;
    var j :| 0 <= j < |users| && users[j] == u;
  }
}
