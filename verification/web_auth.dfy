/** The admin pages' session gate (src/apps/middlewares/webAuth.js): a session with a
    user and an access token lets the page through with an `Authorization: Bearer` header
    for the API calls the page makes; anything else is sent to the login page. */
module WebAuth {
  import opened Js
  import opened Http

  /** The session fields the gate reads: whether `session.user` is set, and `session.accessToken`. */
  datatype WebSession = WebSession(hasUser: bool, accessToken: Option<string>)

  datatype WebOutcome = Proceed(authorization: Option<string>) | RedirectTo(location: string)

  const LOGIN_PAGE: string := "/login"

  /** The header value built from a token. */
  function BearerHeader(token: string): (h: string)
    ensures |h| == |token| + 7 && h[7..] == token
  {
    "Bearer " + token
  }

  /** `attachAuthHeaders`: the header when the session holds a non-empty token, none otherwise. */
  function AttachAuthHeaders(session: Option<WebSession>): (h: Option<string>)
    ensures h.Some? <==> session.Some? && Present(session.value.accessToken)
  {
    if session.Some? && Present(session.value.accessToken) then Some(BearerHeader(session.value.accessToken.value))
    else None
  }

  /** `requireLogin` */
  function RequireLogin(session: Option<WebSession>): (r: WebOutcome)
    ensures r.Proceed? <==> session.Some? && session.value.hasUser && Present(session.value.accessToken)
    ensures r.RedirectTo? ==> r.location == LOGIN_PAGE
  {
    if session.Some? && session.value.hasUser && Present(session.value.accessToken) then
      Proceed(Some(BearerHeader(session.value.accessToken.value)))
    else RedirectTo(LOGIN_PAGE)
  }

  /** Both middlewares build the same header, and an API gate reading it gets the
      session's token back whenever that token has no space in it. */
  lemma HeaderCarriesSessionToken(session: Option<WebSession>)
    requires RequireLogin(session).Proceed?
    ensures RequireLogin(session).authorization == AttachAuthHeaders(session)
    ensures ' ' !in session.value.accessToken.value ==>
              BearerToken(RequireLogin(session).authorization) == session.value.accessToken
  {
    BearerRoundTrip(session.value.accessToken.value);
  }
}
