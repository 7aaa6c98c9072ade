/** The customer authentication handlers of src/apps/controllers/apis/customerAuth.js,
    composed from the codec, the token service and the revocation list. Each handler takes
    the collections it reads and returns its reply together with the collections as it
    leaves them. Calls the handlers start without awaiting are taken to complete, in
    order, before the next request, and their failures are never seen. */
module CustomerAuth {
  import opened Js
  import opened Codec
  import opened TokenRecords
  import opened Revocation
  import opened TokenService
  import opened Principals
  import opened Http
  import opened Gates

  datatype World = World(customers: seq<Customer>, tokens: Tokens)

  /** What a successful login hands the client: the customer view, the access token in the
      body and the refresh token in a cookie. */
  datatype Issued = Issued(customer: Customer, accessToken: string, cookie: Cookie)

  datatype LoginResult = LoginResult(reply: Reply, session: Option<Issued>, world: World)

  /** `login`. `passwordMatches` is the result of comparing the given password with the
      stored hash. Both tokens are minted from the stored document; storing them is not
      awaited; the cookie is set with the misspelt option `maxAg`, so it has no lifetime. */
  function Login(w: World, email: string, passwordMatches: bool, nowMs: nat): (r: LoginResult)
    ensures CustomerByEmail(w.customers, email).None? ==>
              r == LoginResult(Reply(400, "Invalid email"), None, w)
    ensures CustomerByEmail(w.customers, email).Some? && !passwordMatches ==>
              r == LoginResult(Reply(400, "Invalid password"), None, w)
    ensures r.session.Some? <==> r.reply.status == 200
    ensures r.session.Some? ==>
              var c := CustomerByEmail(w.customers, email).value;
              && r.session.value.customer == CustomerView(c)
              && r.session.value.accessToken == GenerateAccessToken(CustomerPayload(c), nowMs)
              && r.session.value.cookie == Cookie(REFRESH_COOKIE, GenerateRefreshToken(CustomerPayload(c), nowMs), None)
              && r.world.customers == w.customers
  {
    match CustomerByEmail(w.customers, email)
    case None => LoginResult(Reply(400, "Invalid email"), None, w)
    case Some(c) =>
      if !passwordMatches then LoginResult(Reply(400, "Invalid password"), None, w)
      else
        var p := CustomerPayload(c);
        var a := GenerateAccessToken(p, nowMs);
        var rt := GenerateRefreshToken(p, nowMs);
        var tokens := StoreCustomerToken(w.tokens, c.id, a, rt, nowMs);
        LoginResult(Reply(200, "Logged in successfully"),
                    Some(Issued(CustomerView(c), a, Cookie(REFRESH_COOKIE, rt, None))),
                    World(w.customers, tokens))
  }

  /** `socialLoginCallback`: the customer the OAuth strategy attached, or a redirect to the
      failure page. The store is awaited, the cookie lasts one day, and the reply carries the
      document as the strategy gave it. */
  datatype SocialResult = SocialRedirect(location: string) | SocialLogin(reply: Reply, session: Issued, tokens: Tokens)

  const LOGIN_FAILURE_PAGE: string := "/api/v3/auth/login-failure"

  function SocialLoginCallback(tokens: Tokens, attached: Option<Customer>, nowMs: nat): (r: SocialResult)
    ensures attached.None? <==> r == SocialRedirect(LOGIN_FAILURE_PAGE)
    ensures r.SocialLogin? ==> r.session.cookie.maxAgeMs == Some(ONE_DAY_MS) && r.session.customer == attached.value
  {
    match attached
    case None => SocialRedirect(LOGIN_FAILURE_PAGE)
    case Some(c) =>
      var p := CustomerPayload(c);
      var a := GenerateAccessToken(p, nowMs);
      var rt := GenerateRefreshToken(p, nowMs);
      SocialLogin(Reply(200, "Social login success. JWT generated."),
                  Issued(c, a, Cookie(REFRESH_COOKIE, rt, Some(ONE_DAY_MS))),
                  StoreCustomerToken(tokens, c.id, a, rt, nowMs))
  }

  /** The two ways in set the same refresh cookie except for its lifetime. */
  lemma CookieLifetimes(w: World, email: string, nowMs: nat)
    requires Login(w, email, true, nowMs).session.Some?
    ensures var c := CustomerByEmail(w.customers, email).value;
            var viaForm := Login(w, email, true, nowMs).session.value.cookie;
            var viaSocial := SocialLoginCallback(w.tokens, Some(c), nowMs).session.cookie;
            && viaForm.maxAgeMs.None? && viaSocial.maxAgeMs == Some(ONE_DAY_MS)
            && viaForm.(maxAgeMs := None) == viaSocial.(maxAgeMs := None)
  {
  }

  /** A first login (no record yet) leaves the state consistent with the new pair as the
      customer's record; the access token then passes the access gate and the refresh token
      the refresh gate for a day, unless the access token's text was already revoked. */
  lemma LoginAdmits(w: World, email: string, nowMs: nat, later: nat)
    requires Consistent(w.tokens)
    requires CustomerByEmail(w.customers, email).Some?
    requires FindRecord(w.tokens.records, CustomerByEmail(w.customers, email).value.id).None?
    requires nowMs <= later && later / 1000 < nowMs / 1000 + SESSION_LIFETIME
    requires !IsRevoked(w.tokens.revoked, Login(w, email, true, nowMs).session.value.accessToken, later)
    ensures var c := CustomerByEmail(w.customers, email).value;
            var r := Login(w, email, true, nowMs);
            var s := r.session.value;
            && r.reply == Reply(200, "Logged in successfully")
            && Consistent(r.world.tokens)
            && FindRecord(r.world.tokens.records, c.id) == Some(TokenRecord(c.id, s.accessToken, s.cookie.value))
            && CustomerAccessGate(Some("Bearer " + s.accessToken), Reachable(r.world.tokens.revoked), w.customers, later)
               == Next(FoundCustomer(w.customers, Some(c.id)))
            && CustomerRefreshGate(Some(s.cookie.value), later).Next?
  {
    var c := CustomerByEmail(w.customers, email).value;
    var p := CustomerPayload(c);
    var a := GenerateAccessToken(p, nowMs);
    var rt := GenerateRefreshToken(p, nowMs);
    LoginIssues(w, email, nowMs);
    assert Cleared(w.tokens, c.id, nowMs) == w.tokens;
    IssuedCanonical(p, nowMs);
    StoreCustomerEffect(w.tokens, c.id, a, rt, nowMs, c.id, nowMs, AccessKey);
    AccessGateAdmitsIssued(c, w.customers, w.tokens.revoked, nowMs, later);
    RefreshGateAdmitsIssued(p, nowMs, later);
  }

  /** A successful login returns the pair it minted and stores it through the token service. */
  lemma LoginIssues(w: World, email: string, nowMs: nat)
    requires CustomerByEmail(w.customers, email).Some?
    ensures var c := CustomerByEmail(w.customers, email).value;
            var p := CustomerPayload(c);
            var r := Login(w, email, true, nowMs);
            && r.reply == Reply(200, "Logged in successfully")
            && r.session.Some?
            && r.session.value.accessToken == GenerateAccessToken(p, nowMs)
            && r.session.value.cookie.value == GenerateRefreshToken(p, nowMs)
            && r.world.tokens == StoreCustomerToken(w.tokens, c.id, GenerateAccessToken(p, nowMs), GenerateRefreshToken(p, nowMs), nowMs)
  {
  }

  datatype LogoutResult = LogoutResult(reply: Reply, tokens: Tokens)

  /** `logout`: revoke the attached customer's stored pair (awaited), then delete the record
      (not awaited). A null customer or a revocation failure ends in 500; revocation entries
      written before a failure stay. */
  function Logout(tokens: Tokens, attached: Option<Customer>, nowMs: nat): (r: LogoutResult)
    ensures attached.None? ==> r == LogoutResult(Reply(500, INTERNAL_ERROR), tokens)
    ensures attached.Some? && FindRecord(tokens.records, attached.value.id).None? ==>
              r == LogoutResult(Reply(500, INTERNAL_ERROR), tokens)
    ensures r.reply.status == 200 || r.reply.status == 500
  {
    match attached
    case None => LogoutResult(Reply(500, INTERNAL_ERROR), tokens)
    case Some(c) =>
      var b := AddTokenBlackList(tokens.records, tokens.revoked, c.id, nowMs);
      if b.outcome.Raised? then LogoutResult(Reply(500, INTERNAL_ERROR), Tokens(tokens.records, b.store))
      else LogoutResult(Reply(200, " Logout successfully"),
                        DeleteCustomerToken(Tokens(tokens.records, b.store), c.id, nowMs).state)
  }

  /** A logout with a stored record succeeds, removes the record and keeps the state
      consistent; from then on the stored access token is refused by the access gate with
      401, whatever the time. */
  lemma LogoutRevokes(tokens: Tokens, c: Customer, customers: seq<Customer>, nowMs: nat, later: nat)
    requires Consistent(tokens) && FindRecord(tokens.records, c.id).Some?
    requires nowMs <= later
    ensures var prev := FindRecord(tokens.records, c.id).value;
            var r := Logout(tokens, Some(c), nowMs);
            && r.reply == Reply(200, " Logout successfully")
            && Consistent(r.tokens)
            && FindRecord(r.tokens.records, c.id).None?
            && CustomerAccessGate(Some("Bearer " + prev.accessToken), Reachable(r.tokens.revoked), customers, later).Answer?
            && CustomerAccessGate(Some("Bearer " + prev.accessToken), Reachable(r.tokens.revoked), customers, later).reply.status == 401
  {
    var prev := FindRecord(tokens.records, c.id).value;
    var b := AddTokenBlackList(tokens.records, tokens.revoked, c.id, nowMs);
    FoundIsCanonical(tokens.records, c.id);
    BlacklistWrites(tokens.records, tokens.revoked, c.id, nowMs);
    DeleteEffect(Tokens(tokens.records, b.store), c.id, nowMs, NO_TOKEN_CUSTOMER, c.id, later, AccessKey);
    assert prev in tokens.records;
    EncodedIsCanonical(Decode(prev.accessToken).value);
    RevokedAccessRefused(prev.accessToken, Logout(tokens, Some(c), nowMs).tokens.revoked, customers, later);
  }

  /** The stored refresh token outlives the logout: the revocation list reports it revoked,
      yet the refresh gate, which never reads the list, still lets it through while its
      signature and expiry hold; the gate with the check refuses it. */
  lemma RefreshSurvivesLogout(tokens: Tokens, c: Customer, nowMs: nat, later: nat)
    requires Consistent(tokens) && FindRecord(tokens.records, c.id).Some?
    requires nowMs <= later
    requires Verify(FindRecord(tokens.records, c.id).value.refreshToken, RefreshKey, later).Valid?
    ensures var prev := FindRecord(tokens.records, c.id).value;
            var r := Logout(tokens, Some(c), nowMs);
            && IsRevoked(r.tokens.revoked, prev.refreshToken, later)
            && CustomerRefreshGate(Some(prev.refreshToken), later).Next?
            && CustomerRefreshGateChecked(Some(prev.refreshToken), Reachable(r.tokens.revoked), later)
               == Answer(Reply(401, "Refresh token is revoked"))
  {
    LogoutRevokesStored(tokens, c, nowMs, later);
  }

  lemma LogoutRevokesStored(tokens: Tokens, c: Customer, nowMs: nat, later: nat)
    requires Consistent(tokens) && FindRecord(tokens.records, c.id).Some?
    requires nowMs <= later
    requires Verify(FindRecord(tokens.records, c.id).value.refreshToken, RefreshKey, later).Valid?
    ensures IsRevoked(Logout(tokens, Some(c), nowMs).tokens.revoked, FindRecord(tokens.records, c.id).value.refreshToken, later)
  {
    var b := AddTokenBlackList(tokens.records, tokens.revoked, c.id, nowMs);
    FoundIsCanonical(tokens.records, c.id);
    BlacklistWrites(tokens.records, tokens.revoked, c.id, nowMs);
    DeleteEffect(Tokens(tokens.records, b.store), c.id, nowMs, NO_TOKEN_CUSTOMER, c.id, later, RefreshKey);
  }

  /** `refreshToken`: a new access token minted from the claims the refresh gate attached,
      without reading the token record or the customer. */
  function RefreshToken(decoded: Token, nowMs: nat): (r: (Reply, string))
    ensures r.0 == Reply(200, "Access token refreshed successfully")
    ensures Decode(r.1) == Some(Token(AccessKey, Session(ClaimsOf(DecodedPayload(decoded))), nowMs / 1000, nowMs / 1000 + SESSION_LIFETIME))
  {
    (Reply(200, "Access token refreshed successfully"), GenerateAccessToken(DecodedPayload(decoded), nowMs))
  }

  /** Refreshing with a login's refresh token yields an access token for the same customer,
      email and role as at login, even if the customer has since changed or gone. */
  lemma RefreshKeepsLoginClaims(c: Customer, loginMs: nat, nowMs: nat)
    ensures var t := Decode(GenerateRefreshToken(CustomerPayload(c), loginMs)).value;
            Decode(RefreshToken(t, nowMs).1).value.body == Decode(GenerateAccessToken(CustomerPayload(c), loginMs)).value.body
  {
    ReissueKeepsClaims(CustomerPayload(c), loginMs, nowMs);
  }

  /** A reset link: where it is mailed, the token, and the email placed in the link. */
  datatype ResetMail = ResetMail(to: string, token: string, linkEmail: string)

  datatype ForgotResult = ForgotResult(reply: Reply, mail: Option<ResetMail>)

  const FORGOT_GENERIC: string := "If an account with that email exists, a password reset link has been sent."
  const FORGOT_SENT: string := "Password reset link sent to your email."

  /** `forgotPassword`: a one-hour reset token is mailed to a known customer; mail failures
      are swallowed. Both outcomes are 200. */
  function ForgotPassword(customers: seq<Customer>, email: string, nowMs: nat): (r: ForgotResult)
    ensures r.reply.status == 200
    ensures r.mail.Some? <==> CustomerByEmail(customers, email).Some?
    ensures r.mail.Some? ==>
              var c := CustomerByEmail(customers, email).value;
              r.mail.value == ResetMail(c.email, GenerateResetToken(CustomerPayload(c), nowMs), email)
  {
    match CustomerByEmail(customers, email)
    case None => ForgotResult(Reply(200, FORGOT_GENERIC), None)
    case Some(c) =>
      ForgotResult(Reply(200, FORGOT_SENT), Some(ResetMail(c.email, GenerateResetToken(CustomerPayload(c), nowMs), email)))
  }

  /** The handler means to answer alike whether or not the email has an account, but the
      messages differ, so the reply tells whether an account exists. */
  lemma ForgotPasswordRevealsAccount(customers: seq<Customer>, email: string, nowMs: nat)
    ensures ForgotPassword(customers, email, nowMs).reply.message == FORGOT_SENT
            <==> CustomerByEmail(customers, email).Some?
  {
  }

  /** `forgotPassword` answering one generic message in both cases. */
  function ForgotPasswordUniform(customers: seq<Customer>, email: string, nowMs: nat): (r: ForgotResult)
    ensures r.mail == ForgotPassword(customers, email, nowMs).mail
  {
    ForgotResult(Reply(200, FORGOT_GENERIC), ForgotPassword(customers, email, nowMs).mail)
  }

  /** With one message the reply no longer depends on the accounts. */
  lemma ForgotPasswordUniformHides(customers1: seq<Customer>, customers2: seq<Customer>, email: string, nowMs: nat)
    ensures ForgotPasswordUniform(customers1, email, nowMs).reply == ForgotPasswordUniform(customers2, email, nowMs).reply
  {
  }

  /** A reset link's token opens the reset for its customer for one hour. */
  lemma ResetMailVerifies(customers: seq<Customer>, email: string, nowMs: nat, later: nat)
    requires ForgotPassword(customers, email, nowMs).mail.Some?
    requires later / 1000 < nowMs / 1000 + RESET_LIFETIME
    ensures var t := ForgotPassword(customers, email, nowMs).mail.value.token;
            Verify(t, ResetKey, later).Valid?
            && TokenId(Verify(t, ResetKey, later).token) == Some(CustomerByEmail(customers, email).value.id)
  {
  }

  /** Index of the customer `findOne({ _id: id, email })` returns. */
  function ResetTarget(customers: seq<Customer>, id: Option<string>, email: string): (r: Option<nat>)
    ensures r.Some? ==> r.value < |customers| && id.Some? && customers[r.value].id == id.value && customers[r.value].email == email
    ensures r.None? <==> id.None? || forall i :: 0 <= i < |customers| ==> !(customers[i].id == id.value && customers[i].email == email)
  {
    if id.None? then None else FirstIndex(customers, (c: Customer) => c.id == id.value && c.email == email)
  }

  datatype ResetResult = ResetResult(reply: Reply, world: World)

  const RESET_DONE: string := "Password reset successfully. Please login with your new password."
  const RESET_ERROR: string := "Internal server error during password reset"

  /** `resetPassword`: the token must verify with the reset key (400), its id and the given
      email must name one customer (404); the new hash is saved, then the customer's stored
      pair is revoked (awaited) and the record deleted (not awaited). A revocation failure,
      including a customer with no record, ends in 500 after the password has changed. */
  function ResetPassword(w: World, token: Option<string>, email: string, newHash: string, nowMs: nat): (r: ResetResult)
    ensures !VerifyOpt(token, ResetKey, nowMs).Valid? ==> r == ResetResult(Reply(400, "Invalid or expired token."), w)
    ensures VerifyOpt(token, ResetKey, nowMs).Valid? && ResetTarget(w.customers, TokenId(VerifyOpt(token, ResetKey, nowMs).token), email).None? ==>
              r == ResetResult(Reply(404, "User not found or token mismatched."), w)
    ensures VerifyOpt(token, ResetKey, nowMs).Valid? && ResetTarget(w.customers, TokenId(VerifyOpt(token, ResetKey, nowMs).token), email).Some? ==>
              var i := ResetTarget(w.customers, TokenId(VerifyOpt(token, ResetKey, nowMs).token), email).value;
              && r.world.customers == w.customers[i := w.customers[i].(password := Some(newHash))]
              && (r.reply.status == 200 || r.reply.status == 500)
              && (FindRecord(w.tokens.records, w.customers[i].id).None? ==> r.reply == Reply(500, RESET_ERROR))
  {
    var v := VerifyOpt(token, ResetKey, nowMs);
    if !v.Valid? then ResetResult(Reply(400, "Invalid or expired token."), w)
    else match ResetTarget(w.customers, TokenId(v.token), email)
      case None => ResetResult(Reply(404, "User not found or token mismatched."), w)
      case Some(i) =>
        var c := w.customers[i];
        var customers := w.customers[i := c.(password := Some(newHash))];
        var b := AddTokenBlackList(w.tokens.records, w.tokens.revoked, c.id, nowMs);
        if b.outcome.Raised? then ResetResult(Reply(500, RESET_ERROR), World(customers, Tokens(w.tokens.records, b.store)))
        else ResetResult(Reply(200, RESET_DONE),
                         World(customers, DeleteCustomerToken(Tokens(w.tokens.records, b.store), c.id, nowMs).state))
  }

  /** A customer who has logged out (no token record) and then resets the password gets a
      500 although the new password has been saved. */
  lemma ResetAfterLogoutFails(w: World, token: string, email: string, newHash: string, nowMs: nat)
    requires VerifyOpt(Some(token), ResetKey, nowMs).Valid?
    requires ResetTarget(w.customers, TokenId(Verify(token, ResetKey, nowMs).token), email).Some?
    requires FindRecord(w.tokens.records, TokenId(Verify(token, ResetKey, nowMs).token).value).None?
    ensures var i := ResetTarget(w.customers, TokenId(Verify(token, ResetKey, nowMs).token), email).value;
            var r := ResetPassword(w, Some(token), email, newHash, nowMs);
            && r.reply == Reply(500, RESET_ERROR)
            && r.world.customers[i].password == Some(newHash)
  {
  }

  /** `resetPassword` treating a missing token record as nothing to revoke. */
  function ResetPasswordFixed(w: World, token: Option<string>, email: string, newHash: string, nowMs: nat): (r: ResetResult)
    ensures !VerifyOpt(token, ResetKey, nowMs).Valid? ==> r == ResetResult(Reply(400, "Invalid or expired token."), w)
  {
    var v := VerifyOpt(token, ResetKey, nowMs);
    if !v.Valid? then ResetResult(Reply(400, "Invalid or expired token."), w)
    else match ResetTarget(w.customers, TokenId(v.token), email)
      case None => ResetResult(Reply(404, "User not found or token mismatched."), w)
      case Some(i) =>
        var c := w.customers[i];
        var customers := w.customers[i := c.(password := Some(newHash))];
        if FindRecord(w.tokens.records, c.id).None? then ResetResult(Reply(200, RESET_DONE), World(customers, w.tokens))
        else
          var d := DeleteCustomerToken(w.tokens, c.id, nowMs);
          if d.outcome.Raised? then ResetResult(Reply(500, RESET_ERROR), World(customers, d.state))
          else ResetResult(Reply(200, RESET_DONE), World(customers, d.state))
  }

  /** On a consistent state a reset whose token verifies and matches a customer always
      succeeds: the new hash is stored, nothing else about the customers changes, and the
      customer is left with no token record. */
  lemma ResetPasswordFixedCompletes(w: World, token: string, email: string, newHash: string, nowMs: nat)
    requires Consistent(w.tokens)
    requires Verify(token, ResetKey, nowMs).Valid?
    requires ResetTarget(w.customers, TokenId(Verify(token, ResetKey, nowMs).token), email).Some?
    ensures var i := ResetTarget(w.customers, TokenId(Verify(token, ResetKey, nowMs).token), email).value;
            var r := ResetPasswordFixed(w, Some(token), email, newHash, nowMs);
            && r.reply == Reply(200, RESET_DONE)
            && r.world.customers == w.customers[i := w.customers[i].(password := Some(newHash))]
            && Consistent(r.world.tokens)
            && FindRecord(r.world.tokens.records, w.customers[i].id).None?
  {
    var i := ResetTarget(w.customers, TokenId(Verify(token, ResetKey, nowMs).token), email).value;
    var c := w.customers[i];
    if FindRecord(w.tokens.records, c.id).Some? {
      DeleteEffect(w.tokens, c.id, nowMs, NO_TOKEN_CUSTOMER, c.id, nowMs, AccessKey);
    }
  }

  /** Where both succeed, the fixed reset and the reset as written agree. */
  lemma ResetPasswordFixedAgrees(w: World, token: string, email: string, newHash: string, nowMs: nat)
    requires Consistent(w.tokens)
    requires ResetPassword(w, Some(token), email, newHash, nowMs).reply.status != 500
    ensures ResetPasswordFixed(w, Some(token), email, newHash, nowMs) == ResetPassword(w, Some(token), email, newHash, nowMs)
  {
    var v := VerifyOpt(Some(token), ResetKey, nowMs);
    if v.Valid? && ResetTarget(w.customers, TokenId(v.token), email).Some? {
      var i := ResetTarget(w.customers, TokenId(v.token), email).value;
      var c := w.customers[i];
      var b := AddTokenBlackList(w.tokens.records, w.tokens.revoked, c.id, nowMs);
      if FindRecord(w.tokens.records, c.id).Some? {
        FoundIsCanonical(w.tokens.records, c.id);
        BlacklistWrites(w.tokens.records, w.tokens.revoked, c.id, nowMs);
      }
      BlacklistIdempotent(w.tokens.records, w.tokens.revoked, c.id, nowMs);
      DeleteEffect(w.tokens, c.id, nowMs, NO_TOKEN_CUSTOMER, c.id, nowMs, AccessKey);
    }
  }

  /** Reset tokens and session tokens are not interchangeable: an access or refresh token
      never opens a reset, and a reset token never passes the access gate. */
  lemma ResetNeedsResetToken(w: World, p: Payload, email: string, newHash: string, issuedMs: nat, nowMs: nat,
                             conn: RevocationConn)
    ensures ResetPassword(w, Some(GenerateAccessToken(p, issuedMs)), email, newHash, nowMs).reply.status == 400
    ensures ResetPassword(w, Some(GenerateRefreshToken(p, issuedMs)), email, newHash, nowMs).reply.status == 400
    ensures !CustomerAccessGate(Some("Bearer " + GenerateResetToken(p, issuedMs)), conn, w.customers, nowMs).Next?
  {
    IssuedCanonical(p, issuedMs);
    BearerRoundTrip(GenerateResetToken(p, issuedMs));
  }
}
