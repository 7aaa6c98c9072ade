/** What an Express handler sends back: a JSON status and message, and cookies. */
module Http {
  import opened Js

  datatype Reply = Reply(status: nat, message: string)

  /** A `req.flash` message of the admin pages. */
  datatype Flash = FlashSuccess(text: string) | FlashError(text: string)

  /** `res.redirect(location)` after setting a flash message. */
  datatype Redirect = Redirect(location: string, flash: Flash)

  /** `res.cookie(name, value, options)`; `maxAgeMs` absent makes a session cookie. */
  datatype Cookie = Cookie(name: string, value: string, maxAgeMs: Option<nat>)

  const REFRESH_COOKIE: string := "refreshToken"
  /** `24 * 60 * 60 * 1000` */
  const ONE_DAY_MS: nat := 86400000

  /** `req.headers.authorization?.split(" ")[1]` */
  function BearerToken(authorization: Option<string>): (r: Option<string>)
    ensures authorization.None? ==> r.None?
    ensures r.Some? ==> ' ' !in r.value
  {
    match authorization
    case None => None
    case Some(h) => SecondField(h)
  }

  /** The header a client builds as `Bearer <token>` hands the token back to the server
      exactly when the token has no space in it. */
  lemma BearerRoundTrip(token: string)
    ensures BearerToken(Some("Bearer " + token)) == Some(token) <==> ' ' !in token
  {
    var h := "Bearer " + token;
    assert h[..6] == "Bearer" && h[6] == ' ';
    assert IndexOf(h, ' ') == Some(6) by {
      assert ' ' !in h[..6];
    }
    assert h[7..] == token;
    FirstFieldWhole(token);
  }
}
