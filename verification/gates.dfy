/** The request gates of src/apps/middlewares: customerAuth.js, userAuth.js and
    orderAuth.js. A gate either passes the request on with what it attached to it, answers
    it, or leaves it without any answer. */
module Gates {
  import opened Js
  import opened Codec
  import opened Revocation
  import opened Principals
  import opened Http

  /** `next()` with the attached value, a JSON reply, a JSON reply after which a second
      attempt to answer throws inside an `async` callback, or no reply at all; a rejected
      promise (`AnswerThenReject`, and `Stall` when `rejected`) is left with nobody to
      handle it. */
  datatype Gate<A> = Next(attached: A) | Answer(reply: Reply) | AnswerThenReject(reply: Reply) | Stall(rejected: bool)

  /** The revocation store as the gate reaches it; a failed `get` throws. */
  datatype RevocationConn = Unreachable | Reachable(store: Store)

  const INTERNAL_ERROR: string := "Internal server error"

  /** `CustomerModel.findById(id).select("-password")`: the named customer, password left out. */
  function FoundCustomer(customers: seq<Customer>, id: Option<string>): (r: Option<Customer>)
    ensures r.None? <==> CustomerById(customers, id).None?
    ensures r.Some? ==> r.value == CustomerView(CustomerById(customers, id).value) && r.value.password.None?
  {
    match CustomerById(customers, id)
    case None => None
    case Some(c) => Some(CustomerView(c))
  }

  /** `verifyAccessToken`: bearer token required, then the revocation list, then the
      signature and expiry with the access key; a valid token attaches the customer it
      names (password left out), or null when there is none. */
  function CustomerAccessGate(authorization: Option<string>, conn: RevocationConn,
                              customers: seq<Customer>, nowMs: nat): (g: Gate<Option<Customer>>)
    ensures g.Next? <==> Present(BearerToken(authorization)) && conn.Reachable?
                         && !IsRevoked(conn.store, BearerToken(authorization).value, nowMs)
                         && Verify(BearerToken(authorization).value, AccessKey, nowMs).Valid?
    ensures g.Next? ==>
              g.attached == FoundCustomer(customers, TokenId(Verify(BearerToken(authorization).value, AccessKey, nowMs).token))
    ensures g.Answer? ==> g.reply.status == (if Present(BearerToken(authorization)) && conn.Unreachable? then 500 else 401)
    ensures !g.Stall?
  {
    var token := BearerToken(authorization);
    if !Present(token) then Answer(Reply(401, "Access token is required"))
    else match conn
      case Unreachable => Answer(Reply(500, INTERNAL_ERROR))
      case Reachable(store) =>
        if IsRevoked(store, token.value, nowMs) then Answer(Reply(401, "Access token is revoked"))
        else match Verify(token.value, AccessKey, nowMs)
          case Expired => Answer(Reply(401, "Access token expired"))
          case Invalid => Answer(Reply(401, "Invalid access token"))
          case Valid(t) => Next(FoundCustomer(customers, TokenId(t)))
  }

  /** `verifyRefreshToken`: the refresh cookie verified with the refresh key; the decoded
      token is attached. A missing cookie is answered 401, but without `return`: the missing
      token is then handed to `jwt.verify`, which calls the `async` callback at once with an
      error, and the callback's own 401 throws because the reply has been sent, leaving its
      promise rejected where the surrounding `try` cannot see it. The revocation list is not
      consulted. */
  function CustomerRefreshGate(cookie: Option<string>, nowMs: nat): (g: Gate<Token>)
    ensures g.Next? <==> Present(cookie) && Verify(cookie.value, RefreshKey, nowMs).Valid?
    ensures g.Next? ==> Decode(cookie.value) == Some(g.attached) && g.attached.key == RefreshKey
    ensures g.AnswerThenReject? <==> !Present(cookie)
    ensures !Present(cookie) ==> g == AnswerThenReject(Reply(401, "Refresh token is required"))
    ensures !g.Stall?
  {
    if !Present(cookie) then AnswerThenReject(Reply(401, "Refresh token is required"))
    else match Verify(cookie.value, RefreshKey, nowMs)
      case Expired => Answer(Reply(401, "Refersh token expired"))
      case Invalid => Answer(Reply(401, "Invalid refresh token"))
      case Valid(t) => Next(t)
  }

  /** A bearer token that is revoked whenever it would verify is refused 401 by the access
      gate once the revocation list answers. */
  lemma RevokedAccessRefused(t: string, store: Store, customers: seq<Customer>, nowMs: nat)
    requires ' ' !in t
    requires Verify(t, AccessKey, nowMs).Valid? ==> IsRevoked(store, t, nowMs)
    ensures CustomerAccessGate(Some("Bearer " + t), Reachable(store), customers, nowMs).Answer?
    ensures CustomerAccessGate(Some("Bearer " + t), Reachable(store), customers, nowMs).reply.status == 401
  {
    BearerRoundTrip(t);
  }

  /** The refresh gate with the revocation check the access gate makes: a revoked refresh
      token is refused before its signature is looked at, and a missing cookie is answered
      once, with `return`, as the access gate does. */
  function CustomerRefreshGateChecked(cookie: Option<string>, conn: RevocationConn, nowMs: nat): (g: Gate<Token>)
    ensures g.Next? <==> Present(cookie) && conn.Reachable? && !IsRevoked(conn.store, cookie.value, nowMs)
                         && Verify(cookie.value, RefreshKey, nowMs).Valid?
    ensures g.Next? ==> Decode(cookie.value) == Some(g.attached) && g.attached.key == RefreshKey
    ensures !Present(cookie) ==> g == Answer(Reply(401, "Refresh token is required"))
    ensures !g.Stall? && !g.AnswerThenReject?
  {
    if !Present(cookie) then Answer(Reply(401, "Refresh token is required"))
    else match conn
      case Unreachable => Answer(Reply(500, INTERNAL_ERROR))
      case Reachable(store) =>
        if IsRevoked(store, cookie.value, nowMs) then Answer(Reply(401, "Refresh token is revoked"))
        else CustomerRefreshGate(cookie, nowMs)
  }

  /** `verifyUserAccessToken` as written: with a token present it calls the promise-returning
      `verify` of src/libs/jwt.js with a third argument that is never called, so the request
      is never answered nor passed on; a bad token also leaves the promise rejected. */
  function UserAccessGate(authorization: Option<string>, nowMs: nat): (g: Gate<Token>)
    ensures !Present(BearerToken(authorization)) ==> g == Answer(Reply(401, "Access token not found"))
    ensures Present(BearerToken(authorization)) ==>
              g == Stall(!Verify(BearerToken(authorization).value, AccessKey, nowMs).Valid?)
  {
    var token := BearerToken(authorization);
    if !Present(token) then Answer(Reply(401, "Access token not found"))
    else Stall(!Verify(token.value, AccessKey, nowMs).Valid?)
  }

  /** `verifyUserRefreshToken` as written, with the same unused callback. */
  function UserRefreshGate(cookie: Option<string>, nowMs: nat): (g: Gate<Token>)
    ensures !Present(cookie) ==> g == Answer(Reply(401, "Refresh token not found"))
    ensures Present(cookie) ==> g == Stall(!Verify(cookie.value, RefreshKey, nowMs).Valid?)
  {
    if !Present(cookie) then Answer(Reply(401, "Refresh token not found"))
    else Stall(!Verify(cookie.value, RefreshKey, nowMs).Valid?)
  }

  /** The user access gate as its callback describes it: a valid token attaches its claims,
      anything else is answered 401. */
  function UserAccessGateAwaited(authorization: Option<string>, nowMs: nat): (g: Gate<Token>)
    ensures !g.Stall?
    ensures g.Next? <==> Present(BearerToken(authorization)) && Verify(BearerToken(authorization).value, AccessKey, nowMs).Valid?
    ensures g.Next? ==> Decode(BearerToken(authorization).value) == Some(g.attached)
  {
    var token := BearerToken(authorization);
    if !Present(token) then Answer(Reply(401, "Access token not found"))
    else match Verify(token.value, AccessKey, nowMs)
      case Valid(t) => Next(t)
      case _ => Answer(Reply(401, "Invalid or expired token"))
  }

  function UserRefreshGateAwaited(cookie: Option<string>, nowMs: nat): (g: Gate<Token>)
    ensures !g.Stall?
    ensures g.Next? <==> Present(cookie) && Verify(cookie.value, RefreshKey, nowMs).Valid?
    ensures g.Next? ==> Decode(cookie.value) == Some(g.attached)
  {
    if !Present(cookie) then Answer(Reply(401, "Refresh token not found"))
    else match Verify(cookie.value, RefreshKey, nowMs)
      case Valid(t) => Next(t)
      case _ => Answer(Reply(401, "Invalid or expired refresh token"))
  }

  /** Every request carrying a token stalls at the user gates, a freshly issued valid one
      included, while the awaited form lets exactly the valid ones through. */
  lemma UserGatesNeverPass(p: Payload, issuedMs: nat, nowMs: nat)
    requires issuedMs <= nowMs && nowMs / 1000 < issuedMs / 1000 + SESSION_LIFETIME
    ensures var a := GenerateAccessToken(p, issuedMs);
            && UserAccessGate(Some("Bearer " + a), nowMs) == Stall(false)
            && UserAccessGateAwaited(Some("Bearer " + a), nowMs) == Next(Decode(a).value)
    ensures UserRefreshGate(Some(GenerateRefreshToken(p, issuedMs)), nowMs) == Stall(false)
  {
    var a := GenerateAccessToken(p, issuedMs);
    BearerRoundTrip(a);
    RoundTrip(SessionToken(AccessKey, p, issuedMs));
    RoundTrip(SessionToken(RefreshKey, p, issuedMs));
  }

  /** `verifyCustomer` (orderAuth.js): never answers; attaches the customer a valid access
      token names, and null for a missing, bad or expired token. */
  function OrderCustomerGate(authorization: Option<string>, customers: seq<Customer>, nowMs: nat): (g: Gate<Option<Customer>>)
    ensures g.Next?
    ensures g.attached.Some? ==> VerifyOpt(BearerToken(authorization), AccessKey, nowMs).Valid?
    ensures VerifyOpt(BearerToken(authorization), AccessKey, nowMs).Valid? ==>
              g.attached == FoundCustomer(customers, TokenId(VerifyOpt(BearerToken(authorization), AccessKey, nowMs).token))
  {
    match VerifyOpt(BearerToken(authorization), AccessKey, nowMs)
    case Valid(t) => Next(FoundCustomer(customers, TokenId(t)))
    case _ => Next(None)
  }

  /** The order gate and the access gate agree on every token that is not revoked; on a
      revoked one the access gate refuses while the order gate still identifies the customer. */
  lemma OrderGateIgnoresRevocation(authorization: Option<string>, store: Store, customers: seq<Customer>, nowMs: nat)
    requires Present(BearerToken(authorization))
    ensures var access := CustomerAccessGate(authorization, Reachable(store), customers, nowMs);
            var order := OrderCustomerGate(authorization, customers, nowMs);
            && (access.Next? ==> order == access)
            && (IsRevoked(store, BearerToken(authorization).value, nowMs) ==>
                  access == Answer(Reply(401, "Access token is revoked"))
                  && (Verify(BearerToken(authorization).value, AccessKey, nowMs).Valid? ==>
                        order == Next(FoundCustomer(customers, TokenId(Verify(BearerToken(authorization).value, AccessKey, nowMs).token)))))
  {
  }

  /** A token issued for a customer, presented as `Bearer <token>` while unexpired and not
      on the revocation list, passes the access gate and attaches that customer. */
  lemma AccessGateAdmitsIssued(c: Customer, customers: seq<Customer>, store: Store, issuedMs: nat, nowMs: nat)
    requires nowMs / 1000 < issuedMs / 1000 + SESSION_LIFETIME
    requires !IsRevoked(store, GenerateAccessToken(CustomerPayload(c), issuedMs), nowMs)
    ensures CustomerAccessGate(Some("Bearer " + GenerateAccessToken(CustomerPayload(c), issuedMs)), Reachable(store), customers, nowMs)
            == Next(FoundCustomer(customers, Some(c.id)))
  {
    var a := GenerateAccessToken(CustomerPayload(c), issuedMs);
    IssuedCanonical(CustomerPayload(c), issuedMs);
    BearerRoundTrip(a);
    CustomerClaims(c);
    assert Verify(a, AccessKey, nowMs).Valid?;
  }

  /** A staff user's unexpired, unrevoked access token passes the customer access gate,
      since both kinds share the access key, and attaches no customer when none has the
      user's id. */
  lemma StaffAccessAttachesNobody(u: User, customers: seq<Customer>, store: Store, issuedMs: nat, nowMs: nat)
    requires nowMs / 1000 < issuedMs / 1000 + SESSION_LIFETIME
    requires !IsRevoked(store, GenerateAccessToken(UserPayload(u), issuedMs), nowMs)
    requires forall i :: 0 <= i < |customers| ==> customers[i].id != u.id
    ensures CustomerAccessGate(Some("Bearer " + GenerateAccessToken(UserPayload(u), issuedMs)), Reachable(store), customers, nowMs)
            == Next(None)
  {
    var a := GenerateAccessToken(UserPayload(u), issuedMs);
    var t := SessionToken(AccessKey, UserPayload(u), issuedMs);
    IssuedCanonical(UserPayload(u), issuedMs);
    BearerRoundTrip(a);
    VerifyOwnKey(t, nowMs);
    UserClaims(u);
    assert TokenId(t) == Some(u.id);
    assert FoundCustomer(customers, Some(u.id)) == None;
  }

  /** A refresh token issued for any payload passes the refresh gate while unexpired. */
  lemma RefreshGateAdmitsIssued(p: Payload, issuedMs: nat, nowMs: nat)
    requires nowMs / 1000 < issuedMs / 1000 + SESSION_LIFETIME
    ensures CustomerRefreshGate(Some(GenerateRefreshToken(p, issuedMs)), nowMs)
            == Next(SessionToken(RefreshKey, p, issuedMs))
  {
    IssuedCanonical(p, issuedMs);
    VerifyOwnKey(SessionToken(RefreshKey, p, issuedMs), nowMs);
  }
}
