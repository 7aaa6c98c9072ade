# E-commerce backend: token lifecycle, gates and handler rules in Dafny

This project models the decision logic of an Express/Mongoose e-commerce backend:
a JSON API for customers and staff plus a server-rendered admin panel. Its centre is
the authentication subsystem. That subsystem issues, verifies, refreshes and revokes
access and refresh tokens for two kinds of principal, customers and staff users. Revoked
tokens go on a blacklist held in a key-value store. Around that centre the model covers
the rules the handlers apply: paging arithmetic, image-path normalisation, the
profanity censors, the order rules and the admin forms' validation order.

Every handler is a pure function. It takes the collections it reads, plus the clock and
the results of the calls it cannot see, and returns its reply together with the
collections as it leaves them. The modules follow the source:

- `Js`: the JavaScript value semantics the handlers rely on.
  This covers truthiness, `trim`, the `\s` and `\W` regex classes, `split(" ")`,
  `Number`, `parseInt`, `Math.ceil` of a quotient, `slice` and UTF-16 length.
- `Codec` (src/libs/jwt.js): tokens as signed claims with NumericDate times
  (section 4.1.4 of RFC 7519).
  Each token has an injective, space-free text form, and signing is abstracted to naming one of three keys.
- `Revocation` (src/libs/redis.token.js): the blacklist, a store of `tb_<token>` entries, each expiring with its token.
- `TokenRecords` and `TokenService` (src/libs/token.service.js): one token-pair record per principal, kept as a sequence so that "at most one record" is a proved invariant.
- `Principals`, `Http`, `Gates` and `WebAuth` (src/apps/middlewares): the account collections, replies and cookies, and the request gates.
- `CustomerAuth` and `UserAuth` (src/apps/controllers/apis/customerAuth.js and userAuth.js): the login, logout, refresh and password-reset handlers.
- `Pagination`, `UploadPaths`, `Banner`, `ProductAdmin` and `AdApi`: the paging helpers, the two image-path normalisers, the merged banner/slider listing, and the form coercions.
- `Censor` and `CommentApi`: the two profanity censors and the comment API.
- `Orders`, `OrderApi`, `AdminOrderApi` and `OrderPages`: the order schema, the customer order API, the admin order API and the admin order pages.
- `UserPages` and `CustomerPages`: the admin forms for users and customers.

The model follows the code where it departs from what its own structure and messages suggest:

- the refresh gates and the user gates do not consult the blacklist;
- the user gates never answer a request that carries a token;
- the login cookie has no lifetime.

Each such difference is stated as a lemma below.

## Model

| member | source | states |
|---|---|---|
| Codec.RoleClaim | src/libs/jwt.js:9 | the role claim is `payload.role` when truthy, otherwise `payload._doc.role` when truthy, otherwise absent, and never an empty string |
| Codec.GenerateAccessToken | src/libs/jwt.js:4-13 | the issued text decodes to an access-key token carrying `{id, email, role}` of the payload, issued at the current whole second and expiring 86400 seconds (one day) later |
| Codec.GenerateRefreshToken | src/libs/jwt.js:15-24 | the issued text decodes to a refresh-key token with the same claims and the same one-day lifetime |
| Codec.GenerateResetToken | src/libs/jwt.js:27-35 | the issued text decodes to a reset-key token naming only the payload's id, expiring 3600 seconds (one hour) after issue |
| Codec.Verify | src/libs/jwt.js:41-48 | a text verifies exactly when it decodes, was signed with the given key and the current second is before its expiry; it is reported expired exactly when key and format are right but the expiry has been reached; everything else is invalid |
| Codec.VerifyOpt | src/libs/jwt.js:41-48 | verifying an `undefined` token always fails |
| Codec.PeekExpiry | src/libs/redis.token.js:14-15 | `jwtDecode(...).exp` is defined exactly for texts that decode, whatever key signed them, and is the token's expiry |
| Codec.RoundTrip | src/libs/jwt.js:4-35 | decoding the text of any token gives back that token |
| Codec.EncodeInjective | src/libs/jwt.js:4-35 | two different tokens never share a text |
| Codec.AccessRefreshDifferOnlyInKey | src/libs/jwt.js:4-24 | the access and refresh tokens minted from one payload at one instant carry the same claims and times, differ in key, and are different texts |
| Codec.VerifyOwnKey | src/libs/jwt.js:41-48 | a token checked against its own key yields exactly that token until its expiry second and `TokenExpiredError` from then on |
| Codec.VerifyOtherKey | src/libs/jwt.js:41-48 | a token checked against any other secret is invalid, expired or not |
| Codec.SameSecondSameTokens | src/libs/jwt.js:4-24 | two tokens minted for the same payload within the same second are the same text |
| Codec.AccessTokenLifetime | src/libs/jwt.js:4-13 | an access token verifies, with the payload's claims, for exactly one day after the second it was issued in, and is reported expired afterwards |
| Codec.ResetTokenLifetime | src/libs/jwt.js:27-35 | a reset token verifies with the reset secret, naming the payload's id, for exactly one hour, and never verifies with the access secret |
| Codec.ReissueKeepsClaims | src/libs/jwt.js:4-24 | an access token minted from the decoded claims of a refresh token names the same principal, email and role as the original payload |
| Codec.IssuedCanonical | src/libs/jwt.js:4-35 | every issued token is a non-empty text without spaces that re-encodes to itself, so it survives the `Bearer <token>` header and a round trip through storage |
| Revocation.Get | src/libs/redis.token.js:16-22 | a key written with `EXAT` t is readable, with its stored value, exactly until the clock passes t seconds |
| Revocation.BlacklistOne | src/libs/redis.token.js:14-23 | a token `jwtDecode` cannot read makes the step fail; a readable token whose expiry is still ahead gets the entry `tb_<token>` = "revoked" expiring with it; an expired token leaves the store as it was |
| Revocation.AddTokenBlackList | src/libs/redis.token.js:4-33 | the 404 "No Token found this customer" is raised exactly when the principal has no record, and then nothing is written; any other failure is an unreadable stored token |
| Revocation.BlacklistWrites | src/libs/redis.token.js:4-33 | for a record with readable tokens the revocation succeeds, writes an entry for each still-live token expiring with that token, and touches no other key |
| Revocation.PartialRevocation | src/libs/redis.token.js:14-32 | when the refresh token cannot be read the call fails, but the access token's entry already written stays: nothing is rolled back |
| Revocation.RevokedWhileValid | src/libs/redis.token.js:4-33 | after revoking a well-formed record, each of its tokens is reported revoked at every later instant at which it would still verify, with any key; revoked means `IsRevoked`: the entry `tb_<token>` is readable and not empty |
| Revocation.BlacklistIdempotent | src/libs/redis.token.js:4-33 | revoking the same principal twice at one instant leaves the same store as revoking once |
| TokenRecords.FindRecord | src/libs/token.service.js:15 | `findOne({customerId})` finds nothing exactly when no record names the principal, and otherwise returns a stored record of that principal |
| TokenRecords.RemoveFirst | src/libs/token.service.js:25 | `deleteOne({customerId})` removes one record exactly when the principal has one, and adds nothing |
| TokenRecords.Save | src/libs/token.service.js:7-11 | saving appends the new record after all existing ones |
| TokenRecords.FindIsFirstOf | src/libs/token.service.js:15 | `findOne` returns the first of the principal's records, and nothing exactly when it has none |
| TokenRecords.RemoveFirstEffect | src/libs/token.service.js:25 | `deleteOne` removes exactly the first record of the principal and leaves every other principal's records as they were |
| TokenRecords.SaveEffect | src/libs/token.service.js:7-11 | saving adds the record at the end of its principal's list and changes no other principal's list |
| TokenRecords.RemoveFirstKeeps | src/libs/token.service.js:25 | deleting keeps "at most one record per principal" and readable tokens, and leaves the principal with no record |
| TokenRecords.SaveKeeps | src/libs/token.service.js:7-11 | saving for a principal without a record keeps "at most one record per principal" and makes `findOne` return the new record |
| TokenRecords.SaveWellFormed | src/libs/token.service.js:7-11 | saving a record of issued tokens keeps every stored token readable |
| TokenService.DeleteToken | src/libs/token.service.js:14-26 | no record gives the 404 with the variant's message and no change; a failure after that is an unreadable token, with the records left in place |
| TokenService.DeleteCustomerToken | src/libs/token.service.js:14-26 | a customer without a record gets "No Token found this customer" and nothing changes; a successful delete removes the customer's first record |
| TokenService.DeleteUserToken | src/libs/token.service.js:38-46 | a user without a record gets "No Token found this user" and nothing changes; a successful delete removes the user's first record |
| TokenService.StoreCustomerToken | src/libs/token.service.js:4-12 | the new record is saved last, whatever happened to the previous one |
| TokenService.StoreUserToken | src/libs/token.service.js:28-36 | a failure can only come from deleting an existing record, and then nothing is saved; on success the new record is saved last |
| TokenService.DeleteEffect | src/libs/token.service.js:14-26 | on a consistent state the delete succeeds, keeps the state consistent, leaves the principal without a record and every other principal's record in place, and revokes the deleted tokens for as long as they would verify |
| TokenService.ClearedEffect | src/libs/token.service.js:4-6 | clearing before a save leaves the state consistent, the principal without a record, others untouched, and the replaced tokens revoked while they would verify |
| TokenService.StoreCustomerEffect | src/libs/token.service.js:4-12 | storing keeps the state consistent, makes the new pair the principal's only record, leaves other principals' records in place, and revokes the replaced pair while it would verify |
| TokenService.StoreUserAgrees | src/libs/token.service.js:28-36 | on a consistent state the awaited user variant never fails and ends in the same state as the customer variant |
| TokenService.SameSecondReloginRevokesNewPair | src/libs/token.service.js:4-12 | a second login within the same second is issued the very same texts, so storing it revokes the pair it has just issued: the stored access token verifies and is revoked at once |
| TokenService.StoreCustomerTokenFixed | src/libs/token.service.js:4-12 | the corrected store leaves record and revocation list untouched when the pair on record is the one being stored, and otherwise stores as written |
| TokenService.SameSecondReloginKeepsSession | src/libs/token.service.js:4-12 | with the correction, a second login within the same second keeps the issued pair on record, verifying and not revoked |
| Principals.CustomerById | src/apps/middlewares/customerAuth.js:32-34 | `findById` finds nothing exactly when the id is undefined or no customer has it, and otherwise a stored customer with that id |
| Principals.CustomerByEmail | src/apps/controllers/apis/customerAuth.js:74 | `findOne({email})` finds nothing exactly when no customer has the email, and otherwise a stored customer with that email |
| Principals.UserById | src/apps/controllers/web/user.js:55 | `findById` finds nothing exactly when the id is undefined or no user has it, and otherwise a stored user with that id |
| Principals.UserByEmail | src/apps/controllers/web/user.js:115 | `findOne({email})` finds nothing exactly when no user has the email, and otherwise a stored user with that email |
| Principals.CustomerClaims | src/libs/jwt.js:7-9 | a token minted for a customer document names its id and carries its email and role, an empty role being left out |
| Principals.UserClaims | src/libs/jwt.js:7-9 | a token minted for a user document names its id and carries its email and role, an empty role being left out |
| Http.BearerToken | src/apps/middlewares/customerAuth.js:7 | the token read from `Authorization` is absent without a header and never contains a space |
| Http.BearerRoundTrip | src/apps/middlewares/customerAuth.js:7 | a header built as `Bearer <token>` hands back exactly that token if and only if the token has no space |
| Gates.FoundCustomer | src/apps/middlewares/customerAuth.js:32-37 | the attached customer is the stored one with that id, without its password, and is null exactly when no customer has the id |
| Gates.CustomerAccessGate | src/apps/middlewares/customerAuth.js:5-47 | the request passes exactly when a bearer token is present, the revocation list answers, the token is not revoked and it verifies with the access key; it then carries the customer the token names; refusals are 401, or 500 when the revocation list cannot be reached; the gate always answers or passes |
| Gates.CustomerRefreshGate | src/apps/middlewares/customerAuth.js:48-80 | the request passes exactly when the refresh cookie is present and verifies with the refresh key, carrying the decoded token; a missing cookie is answered 401 "Refresh token is required" and, for lack of a `return`, also leaves a rejected promise nobody handles (the callback's second 401 throws because the reply has been sent); the revocation list plays no part |
| Gates.CustomerRefreshGateChecked | src/apps/middlewares/customerAuth.js:48-80 | the corrected refresh gate passes exactly when the cookie is present, the revocation list answers, the cookie is not revoked and it verifies with the refresh key; a missing cookie is answered 401 once, with no promise left rejected |
| Gates.UserAccessGate | src/apps/middlewares/userAuth.js:7-34 | without a bearer token the answer is 401 "Access token not found"; with one the request is never answered nor passed on, and the promise is left rejected exactly when the token does not verify |
| Gates.UserRefreshGate | src/apps/middlewares/userAuth.js:39-66 | without a refresh cookie the answer is 401 "Refresh token not found"; with one the request is never answered nor passed on |
| Gates.UserAccessGateAwaited | src/apps/middlewares/userAuth.js:17-26 | the corrected user gate always answers or passes, and passes exactly the requests whose bearer token verifies with the access key, carrying the decoded token |
| Gates.UserRefreshGateAwaited | src/apps/middlewares/userAuth.js:49-58 | the corrected refresh gate passes exactly the requests whose cookie verifies with the refresh key, carrying the decoded token |
| Gates.UserGatesNeverPass | src/apps/middlewares/userAuth.js:17-26 | a freshly issued, unexpired access token stalls at the user gate as written while the corrected gate lets it through; a fresh refresh token stalls too |
| Gates.OrderCustomerGate | src/apps/middlewares/orderAuth.js:4-22 | the order gate always passes the request on; it attaches a customer only when the bearer token verifies with the access key, and then the customer the token names, or null when there is none |
| Gates.OrderGateIgnoresRevocation | src/apps/middlewares/orderAuth.js:4-22 | on every token the access gate admits the order gate attaches the same customer, while for a revoked token the access gate answers 401 "Access token is revoked" and the order gate still identifies the customer |
| Gates.AccessGateAdmitsIssued | src/apps/middlewares/customerAuth.js:5-47 | an unexpired, unrevoked token issued for a customer and sent as `Bearer <token>` passes the access gate and attaches that customer |
| Gates.RefreshGateAdmitsIssued | src/apps/middlewares/customerAuth.js:48-80 | an unexpired refresh token issued for any payload passes the refresh gate, carrying the token issued |
| WebAuth.AttachAuthHeaders | src/apps/middlewares/webAuth.js:24-29 | a header is attached exactly when there is a session holding a non-empty access token |
| WebAuth.RequireLogin | src/apps/middlewares/webAuth.js:4-22 | a page proceeds exactly when the session has a user and a non-empty access token; otherwise it redirects to `/login` |
| WebAuth.HeaderCarriesSessionToken | src/apps/middlewares/webAuth.js:4-29 | both middlewares build the same header, and an API gate reading it recovers the session's token whenever the token has no space |
| CustomerAuth.Login | src/apps/controllers/apis/customerAuth.js:70-112 | an unknown email answers 400 "Invalid email" and a wrong password 400 "Invalid password", both changing nothing; a session is handed out exactly on 200, with the password-free customer view, an access token and a refresh cookie without lifetime both minted from the stored document at the current second |
| CustomerAuth.LoginIssues | src/apps/controllers/apis/customerAuth.js:91-96 | a successful login returns the very pair it minted and stores that pair as the customer's token record through the token service |
| CustomerAuth.LoginAdmits | src/apps/controllers/apis/customerAuth.js:89-111 | after a first login the token state stays consistent, the record holds the returned pair, the access token passes the access gate (attaching the customer) and the refresh cookie passes the refresh gate for the next day |
| CustomerAuth.SocialLoginCallback | src/apps/controllers/apis/customerAuth.js:273-307 | with no customer attached by the OAuth strategy the answer is the redirect to the login-failure page and only then; otherwise the cookie lives one day and the reply carries the attached document |
| CustomerAuth.CookieLifetimes | src/apps/controllers/apis/customerAuth.js:100-105 | the form login and the social callback set the same refresh cookie except that the form login's misspelt `maxAg` leaves it without the one-day lifetime the callback gives it |
| CustomerAuth.Logout | src/apps/controllers/apis/customerAuth.js:121-138 | no attached customer, or a customer with no token record, answers 500 and leaves the token state as it was; every answer is 200 or 500 |
| CustomerAuth.LogoutRevokes | src/apps/controllers/apis/customerAuth.js:125-130 | a logout with a stored record answers 200, removes the record, keeps the state consistent, and from then on the old access token is refused with 401 by the access gate at any later time |
| CustomerAuth.RefreshSurvivesLogout | src/apps/middlewares/customerAuth.js:48-72 | after logout the old refresh token is on the revocation list yet the refresh gate as written still admits it while it verifies; the gate with a revocation check answers 401 "Refresh token is revoked" |
| CustomerAuth.RefreshToken | src/apps/controllers/apis/customerAuth.js:238-246 | always 200, and the new access token carries the claims decoded from the refresh token, issued now for one day, with no record or customer read |
| CustomerAuth.RefreshKeepsLoginClaims | src/apps/controllers/apis/customerAuth.js:238-246 | refreshing with a login's refresh token gives an access token with exactly the login's claims, whatever happened to the customer since |
| CustomerAuth.ForgotPassword | src/apps/controllers/apis/customerAuth.js:141-175 | the reply is always 200; a reset mail goes out exactly when the email names a customer, to that customer's address, carrying a reset token minted for that customer now |
| CustomerAuth.ResetMailVerifies | src/apps/controllers/apis/customerAuth.js:156-160 | the mailed token verifies with the reset key for one hour and names the customer the email belongs to |
| CustomerAuth.ResetTarget | src/apps/controllers/apis/customerAuth.js:204 | the found customer has both the token's id and the given email, and nothing is found exactly when no customer has both |
| CustomerAuth.ResetPassword | src/apps/controllers/apis/customerAuth.js:187-236 | a token failing the reset-key verify answers 400 and a token/email pair naming no customer 404, both changing nothing; otherwise the new hash is stored whatever follows, and a customer without a token record gets 500 |
| CustomerAuth.ResetPasswordFixedAgrees | src/apps/controllers/apis/customerAuth.js:213-227 | on a consistent token state, whenever the handler as written does not fail with 500, the corrected handler gives the same reply and state |
| CustomerAuth.ResetNeedsResetToken | src/apps/controllers/apis/customerAuth.js:192-201 | an access or refresh token never opens a reset (400), and a reset token never passes the customer access gate |
| CustomerAuth.ForgotPasswordRevealsAccount | src/apps/controllers/apis/customerAuth.js:147-175 | the reply message is the "sent" text exactly when the email has an account, so the answer discloses whether the account exists |
| CustomerAuth.ForgotPasswordUniform | src/apps/controllers/apis/customerAuth.js:147-153 | the corrected handler mails exactly what the handler as written mails |
| CustomerAuth.ForgotPasswordUniformHides | src/apps/controllers/apis/customerAuth.js:147-153 | with one message the reply is the same whatever the stored customers are |
| CustomerAuth.ResetAfterLogoutFails | src/apps/controllers/apis/customerAuth.js:213-221 | a valid reset for a customer with no token record (after logout) answers 500 although the new hash has already been saved |
| CustomerAuth.ResetPasswordFixed | src/apps/controllers/apis/customerAuth.js:187-236 | the corrected reset keeps the 400 answer for a token failing the reset-key verify, changing nothing |
| CustomerAuth.ResetPasswordFixedCompletes | src/apps/controllers/apis/customerAuth.js:213-227 | on a consistent state a verified, matching reset always answers 200, stores only the new hash and leaves the customer without a token record |
| CustomerAuth.LogoutRevokesStored | src/apps/controllers/apis/customerAuth.js:125-130 | after a logout the refresh token of the stored record is revoked at every later instant at which it would still verify |
| UserAuth.Login | src/apps/controllers/apis/userAuth.js:10-33 | an unknown email and a wrong password give the identical 401 and change nothing; a session is returned exactly on 200, holding the password-free user view, tokens minted from the stored user and a one-day cookie, and the user then has a token record |
| UserAuth.LoginStores | src/apps/controllers/apis/userAuth.js:17-19 | on a consistent token state good credentials always succeed, and afterwards the user's one record is exactly the returned pair, the state still consistent |
| UserAuth.Logout | src/apps/controllers/apis/userAuth.js:44-61 | the token records are never changed; claims without an id answer 500; the answer is 200 exactly when blacklisting the stored pair succeeds |
| UserAuth.LogoutRepeatable | src/apps/controllers/apis/userAuth.js:46-48 | because the record is kept, a second logout also answers 200 and leaves the state exactly as the first left it |
| UserAuth.RefreshToken | src/apps/controllers/apis/userAuth.js:64-78 | the answer is 404 "User not found" exactly when the claims' id names no user; otherwise 200 with an access token minted now from the user as currently stored |
| UserAuth.RefreshUsesCurrentRole | src/apps/controllers/apis/userAuth.js:67-72 | the refreshed token carries the id and role the user has now, not those recorded in the refresh token |
| UserAuth.GetMe | src/apps/controllers/apis/userAuth.js:89-105 | a user is returned exactly when the claims' id names one, without the password; otherwise 404 "User not found" |
| UserAuth.GetMeAgreesWithRefresh | src/apps/controllers/apis/userAuth.js:64-105 | for the same decoded claims `getMe` answers 404 exactly when `refreshToken` does, with the same reply |
| UserAuth.LoginThenGetMe | src/apps/controllers/apis/userAuth.js:10-105 | with distinct user ids, after a successful login the access token decodes, and `getMe` on it answers 200 with exactly the password-free user the login returned |
| Pagination.PageOrFirst | src/libs/view.pagination.js:14 | `Number(currentPage) \|\| 1` is never 0: a non-numeric or zero page becomes page 1 |
| Pagination.Clamp | src/libs/view.pagination.js:13 | the result lies within the bounds and equals the input when the input already does |
| Pagination.CurrentPage | src/libs/view.pagination.js:13-14 | the page the list centres on lies between 1 and the page count |
| Pagination.CompactPagination | src/libs/view.pagination.js:4-36 | the list is empty exactly when there are fewer than one page; up to seven pages it is every page in order; beyond that it has 4 to 7 entries, starting with page 1 and ending with the last page |
| Pagination.WindowShape | src/libs/view.pagination.js:17-33 | position by position, a long list is page 1, an optional placeholder, the pages from `max(2, cur-1)` to `min(total-1, cur+1)`, an optional placeholder, the last page |
| Pagination.CompactPaginationShows | src/libs/view.pagination.js:4-36 | page numbers strictly increase, neighbouring numbers are consecutive, a placeholder stands exactly between two numbers at least two apart (so two placeholders are never adjacent), a page is listed exactly when it must be shown, and the clamped current page is always listed |
| Pagination.AllPagesShown | src/libs/view.pagination.js:8-11 | up to seven pages the list shows every page and nothing else, in order |
| Pagination.PlaceholderPlacement | src/libs/view.pagination.js:20-30 | a placeholder follows page 1 exactly when the current page is past 3, and one precedes the last page exactly when the current page is more than two before it |
| Pagination.SkipIsPreviousPages | src/apps/controllers/apis/adminOrder.js:16-30 | for a positive page and limit, the skip `page*limit - limit` passes over exactly the entries of pages 1 to page-1: those pages, concatenated, are the first `skip` entries of the list, or all of it when it is shorter |
| Pagination.PageOf | src/apps/controllers/apis/adminOrder.js:28-30 | a page of `.skip(..).limit(limit)` holds at most `limit` entries |
| Pagination.Paginate | src/libs/paginate.js:1-17 | page and limit come back unchanged; for a positive limit the page count is the least whole number of pages holding every document (`ceil(count/limit)`); next and prev are unclamped; there is a previous page exactly when the page is at least 2 |
| Pagination.HasNextIffMore | src/libs/paginate.js:3-6 | there is a next page exactly when some document lies beyond the current page's slice |
| UploadPaths.StripLeadingSlashes | src/apps/controllers/web/banner.js:31 | the result is a suffix of the input that does not start with a slash, and everything removed was slashes |
| UploadPaths.UnderSubfolder | src/apps/controllers/web/banner.js:27-31 | a path built as `/upload/<sub>/<name>` starts with the upload prefix and, like the name, has no white space at the end |
| Banner.NormalizeAdImage | src/apps/controllers/web/banner.js:12-14 | a missing, empty or non-string image gives the placeholder |
| Banner.RewriteAdPath | src/apps/controllers/web/banner.js:15-31 | each of the four rewrites yields a path starting with `/upload/`, and a path that already starts so is kept |
| Banner.AdImageShape | src/apps/controllers/web/banner.js:12-36 | every result is the placeholder or a path starting with `/upload/` with no white space at either end |
| Banner.RewriteShape | src/apps/controllers/web/banner.js:18-31 | each of the four rewrites of a trimmed text yields a trimmed upload path |
| Banner.PublicToUpload | src/apps/controllers/web/banner.js:21-23 | dropping the leading `/public` from `/public/upload/...` leaves an upload path |
| Banner.UploadPathFixed | src/apps/controllers/web/banner.js:15-18 | a trimmed upload path normalises to itself |
| Banner.AdImageFixedPoint | src/apps/controllers/web/banner.js:12-36 | normalising a result again returns it unchanged, for every result but the placeholder |
| Banner.PlaceholderNotFixed | src/apps/controllers/web/banner.js:14-31 | the placeholder itself is not a fixed point: fed back in, it becomes a path inside the subfolder |
| Banner.DetectAdType | src/apps/controllers/web/banner.js:39-43 | the type is "slider" exactly when the path contains `/sliders` or the query type is the string "slider", and "banner" otherwise |
| Js.IncludesIffOccurs | src/apps/controllers/web/banner.js:40 | `includes` as modelled holds exactly when the part sits at some index of the text: the index-based definition of a substring |
| Banner.SliderPathsDetected | src/apps/controllers/web/banner.js:39-43 | every path under `/admin/sliders` is typed "slider", whatever the query says |
| Banner.BannerPathsTypedByQuery | src/routers/site.js:72-91 | on the routes this controller is mounted on, all under `/admin/banners` with no `/sliders` after it, the type is "slider" exactly when the query type is the string "slider", and "banner" otherwise |
| Banner.Insert | src/apps/controllers/web/banner.js:82-83 | insertion adds exactly the one ad: the result is the input plus the ad as a multiset; the order is `Before`, the comparator `a.position - b.position \|\| b.updatedAt - a.updatedAt` read as a strict order |
| Banner.InsertSorted | src/apps/controllers/web/banner.js:83 | inserting into a list ordered by the comparator keeps it ordered |
| Banner.InsertWithKey | src/apps/controllers/web/banner.js:83 | insertion places the new ad behind every ad with the same key |
| Banner.SortAds | src/apps/controllers/web/banner.js:82-83 | the sort returns a permutation of its input |
| Banner.SortAdsStable | src/apps/controllers/web/banner.js:82-83 | the sorted list is ordered by position ascending, then most recently updated first, and ads with equal position and update time keep their input order (the sort is stable) |
| Banner.Tag | src/apps/controllers/web/banner.js:77-78 | each ad is kept and only gains its type tag |
| Banner.MergedOrder | src/apps/controllers/web/banner.js:77-83 | the merged list is a permutation of the tagged banners followed by the tagged sliders, sorted by the comparator, with ties ordered banners first and then by input order |
| Banner.Merged | src/apps/controllers/web/banner.js:77-83 | the merged list has one entry for every banner and every slider |
| Banner.PageOf | src/apps/controllers/web/banner.js:85-91 | the listing reports the full count and the requested page, a page count that is never 0, prev `page>1 ? page-1 : 1` and next `page<totalPages ? page+1 : totalPages` |
| Banner.MergedListing | src/apps/controllers/web/banner.js:55-97 | a failed fetch gives an empty listing with one page; otherwise it is the requested page of the merged list at the requested limit, with page 1 and ten entries as defaults |
| Banner.PageBounds | src/apps/controllers/web/banner.js:85 | the page count is at least 1, exactly 1 for an empty list, and otherwise the least number of limit-sized pages that hold the list |
| Banner.PageSlice | src/apps/controllers/web/banner.js:89-91 | an in-range page is the slice of the merged list from `(page-1)*limit` to the smaller of `page*limit` and the count |
| Banner.Display | src/apps/controllers/web/banner.js:112-121 | the link is the ad's url when present and `#` otherwise, so never empty; the image is the ad's image normalised into `sliders` for a slider and `banners` for anything else, hence the placeholder or an upload path; publish is true exactly when the ad's flag is true; the ad and its position are kept |
| ProductAdmin.NormalizeImagePath | src/apps/controllers/web/product.js:12-13 | a missing, empty or non-string value gives the empty string |
| ProductAdmin.RewriteImagePath | src/apps/controllers/web/product.js:16-22 | the last rewrite always yields a path starting with `/upload/`, and keeps one that already does |
| ProductAdmin.ImagePathShape | src/apps/controllers/web/product.js:12-22 | every non-empty string becomes a path starting with `/upload/` with no white space at either end; anything else becomes "" |
| ProductAdmin.ImagePathIdempotent | src/apps/controllers/web/product.js:12-22 | normalising a result again returns it unchanged, for every input |
| ProductAdmin.ReplaceTrimmed | src/apps/controllers/web/product.js:14-16 | replacing the `/public/upload` prefix keeps a trimmed text trimmed |
| ProductAdmin.UploadNotPublic | src/apps/controllers/web/product.js:16-18 | an upload path is left alone by the prefix replacement |
| ProductAdmin.PublicPrefixAnyCase | src/apps/controllers/web/product.js:16-21 | `/public/upload` in any letter case is replaced by `/upload` even without a following slash: followed by a slash it gives `/upload/...` as is, otherwise the text lands under the subfolder as `/upload/<sub>/upload...` |
| ProductAdmin.MessageOr | src/apps/controllers/web/product.js:144 | the message is never empty unless the fallback is |
| ProductAdmin.Store | src/apps/controllers/web/product.js:93-148 | a product is created exactly when there are no validation errors, a file was uploaded and the save succeeds; validation errors come first, then "Product image is required"; a created product has the normalised file name as image and stock and featured flags true exactly when the field is '1', 1 or true (`Flag`); every refusal returns to the form with at least one message |
| ProductAdmin.StoredImageIsUpload | src/apps/controllers/web/product.js:114 | a stored product's image is a trimmed upload path |
| ProductAdmin.EditPatch | src/apps/controllers/web/product.js:201-214 | the body is copied as sent, so the submitted name is kept; the new image is the normalised upload, else the form's image field; the stock flag is changed exactly when the field was sent, and then coerced like the create form; the featured flag is always coerced |
| ProductAdmin.Apply | src/apps/controllers/web/product.js:238-242 | the name, image and stock flag the edit carries replace the stored ones and the others stay; the featured flag is always replaced |
| ProductAdmin.ApplyIdempotent | src/apps/controllers/web/product.js:238-242 | submitting the same edit twice leaves the product as after the first |
| ProductAdmin.Update | src/apps/controllers/web/product.js:189-253 | only the product with the given id can change, and only when validation passes, it exists and the write succeeds; validation errors return to the form, an unknown id to the list with "Sản phẩm không tồn tại."; success names the product as it was before the edit, even when the edit renames it |
| ProductAdmin.EditOmittedFlags | src/apps/controllers/web/product.js:201-214 | an edit without a name or the stock field keeps the stored name and stock flag, while one without the featured checkbox clears the featured flag |
| ProductAdmin.EditAgreesWithStore | src/apps/controllers/web/product.js:201-214 | an edit sending a name, a file and both flags stores exactly the product creating with them would store |
| ProductAdmin.IndexNav | src/apps/controllers/web/product.js:49-61 | with no page metadata the list has no pages; otherwise prev is the metadata's prev when there is a previous page and 1 otherwise, next is its next when there is a next page and the page count otherwise, and the compact page list is built for that count and page |
| ProductAdmin.IndexNavClamps | src/apps/controllers/web/product.js:57-59 | with the metadata of `paginate`, prev is `page-1` but at least 1 and next is `page+1` but at most the page count, as in the banner list |
| ProductAdmin.DisplayImages | src/apps/controllers/web/product.js:44-47 | each product keeps its place and gets its image normalised |
| ProductAdmin.DisplayedImagesAreUploads | src/apps/controllers/web/product.js:44-47 | every shown image is empty or an upload path |
| AdApi.Position | src/apps/controllers/apis/ad.js:96 | `parseInt(position) \|\| 0`: the parsed integer when there is one, and 0 when the parse yields NaN |
| AdApi.NewAd | src/apps/controllers/apis/ad.js:92-98 | the new document has the uploaded image, the sent url or the schema default `#`, target and publish true exactly when the field is the text `true`, and the coerced position (`IsTrueText`: strict equality with "true") |
| AdApi.Create | src/apps/controllers/apis/ad.js:75-118 | without an image the answer is 400 "Image is required" and nothing is stored; the collection changes exactly when there is an image and the save succeeds, and then by the one new document under the new id with 201; a failed save answers 400 for a validation error and 500 otherwise |
| AdApi.Revise | src/apps/controllers/apis/ad.js:129-140 | the flags and the position are always overwritten, the url only when sent, and the image only when a new one came |
| AdApi.Update | src/apps/controllers/apis/ad.js:123-162 | the set of ids never changes; a failed write answers 500 and an unknown id 404, both changing nothing; otherwise 200 and only that document is revised |
| AdApi.Detail | src/apps/controllers/apis/ad.js:167-185 | a document is returned exactly when the id is stored, and 404 otherwise |
| AdApi.Delete | src/apps/controllers/apis/ad.js:190-208 | afterwards the id is gone and every other document is untouched; the answer is 200 when the id was stored and 404, changing nothing, otherwise |
| AdApi.OnlyTrueTextSetsFlags | src/apps/controllers/apis/ad.js:95-97 | `"1"`, `"on"`, `"TRUE"` and a JSON `true` all leave the flag false: only the exact text `true` sets it |
| AdApi.PositionReadsLeadingDigits | src/apps/controllers/apis/ad.js:96 | a position text starting with decimal digits is read as that digit run, ignoring what follows |
| AdApi.UpdateResetsOmitted | src/apps/controllers/apis/ad.js:129-134 | an update without flags or position resets them to false, false and 0 whatever was stored, and keeps the stored image when none was sent |
| AdApi.UpdateIdempotent | src/apps/controllers/apis/ad.js:142-146 | sending the same update twice gives the same reply and collection as sending it once |
| AdApi.UpdateMatchesCreate | src/apps/controllers/apis/ad.js:129-140 | an update carrying every field of a create form stores exactly what creating from that form stores |
| AdApi.CreateDetailDelete | src/apps/controllers/apis/ad.js:75-208 | a created ad reads back as built; after deleting it the detail and a second delete answer 404 and the collection is as before the create |
| Censor.Mask | src/apps/controllers/web/comment.js:18 | the display censor replaces a matched word by one star per letter |
| Censor.Delimiter | src/apps/controllers/apis/comment.js:13 | the right-hand group `([\s\W]\|$)` matches exactly at the end of the text or at a character outside `[A-Za-z0-9_]`, taking at most that one character |
| Censor.HitAt | src/apps/controllers/apis/comment.js:13 | a match tried at a position takes at most one delimiter on each side and has the word, up to case, between them |
| Censor.PatternFindsOccurrences | src/apps/controllers/apis/comment.js:13 | what the pattern matches is a whole-word occurrence (start of text or a `[\s\W]` character on each side); every whole-word occurrence is matched by a try one character before it, or at the start of the text |
| Censor.ReplaceFrom | src/apps/controllers/apis/comment.js:15-17 | the global replace never lengthens the text when the mask is no longer than the word; with one star per letter it keeps the length and changes only characters inside whole-word occurrences, each into a star |
| Censor.Replace | src/apps/controllers/apis/comment.js:13-17 | one global replace of the pattern: never longer than the text when the mask is no longer than the word, one star per letter changes only characters inside whole-word occurrences, and a text without the word, in any case, is returned unchanged |
| Censor.ListsNonEmpty | src/apps/controllers/apis/comment.js:4-6 | the display list starts with the seven API words, and no word of either list is empty |
| Censor.CensorWords | src/apps/controllers/apis/comment.js:12-18 | the replaces run word by word in list order: a text containing none of the words is unchanged, two stars per match never lengthen a text when every word has two letters or more, and one star per letter keeps the length and turns characters only into stars |
| Censor.CensorProfanity | src/apps/controllers/apis/comment.js:8-20 | the stored comment is never longer than the submitted one (every API word has at least two letters), and a comment containing none of the API words, in any case, is stored exactly as submitted |
| Censor.DisplayCensored | src/apps/controllers/web/comment.js:10-23 | a missing or empty comment shows as ""; any other keeps its length, differs from the stored text only in characters turned into stars, and is shown unchanged when it contains none of the display words |
| Censor.AbsentWordUnchanged | src/apps/controllers/apis/comment.js:13-17 | a text in which the word does not appear, in any case, comes back unchanged from its replace |
| Censor.CensorWordsSplit | src/apps/controllers/apis/comment.js:12-18 | the words are applied in list order: censoring with a list is censoring with its first words, then with the rest |
| Censor.ConsumedDelimiterHidesNext | src/apps/controllers/apis/comment.js:13-17 | a match takes its right delimiter, so in "cc cc" the second "cc" is left alone although it is a whole-word occurrence |
| Censor.LetterMissing | src/apps/controllers/apis/comment.js:13 | a word with a letter the text lacks, in any case, does not appear in it |
| Censor.ApiCensorKeepsSecond | src/apps/controllers/apis/comment.js:8-20 | the whole API censor turns "cc cc" into "** cc" |
| Censor.DisplayKeepsSecond | src/apps/controllers/web/comment.js:14-20 | the whole display censor shows the comment "cc cc" as "** cc": the first match takes the space after it, so the second "cc" is never found |
| Censor.NoOverlap | src/apps/controllers/web/comment.js:15 | two whole-word occurrences of a word meeting the non-overlap condition cannot overlap |
| Censor.IntendedStarsEveryOccurrence | src/apps/controllers/web/comment.js:14-20 | the corrected scan, which looks at the delimiters without taking them, keeps the length and stars every character of every whole-word occurrence |
| Censor.MaskOccurrencesFrom | src/apps/controllers/apis/comment.js:13-17 | the corrected pass, which looks at the delimiters without taking them, never lengthens the text when the mask is no longer than the word and keeps its length when the mask has one character per letter |
| Censor.IntendedReplacesNext | src/apps/controllers/apis/comment.js:13-17 | from any position the corrected pass reaches, the text up to the next whole-word occurrence is kept unchanged, that occurrence becomes the mask and the pass resumes right after it; with no occurrence left the rest is kept; for a word meeting the non-overlap condition no occurrence starts inside the one replaced, so every whole-word occurrence is replaced and all other text is kept |
| Censor.CensorWordsIntended | src/apps/controllers/apis/comment.js:12-18 | the corrected censor over a word list keeps a text containing none of the words, never lengthens it with two stars per match, and keeps its length with one star per letter |
| Censor.CensorProfanityIntended | src/apps/controllers/apis/comment.js:8-20 | the corrected API censor: never longer than the submitted comment, and the comment itself when it contains none of the API words |
| Censor.DisplayCensoredIntended | src/apps/controllers/web/comment.js:10-23 | the corrected display censor: "" for a missing or empty comment, otherwise the stored length, and the stored text when it contains none of the display words |
| Censor.IntendedStarsBoth | src/apps/controllers/apis/comment.js:13-17 | one corrected pass with "cc" turns "cc cc" into "** **" |
| Censor.IntendedApiStarsBoth | src/apps/controllers/apis/comment.js:8-20 | the whole corrected API censor turns "cc cc" into "** **", where the censor as written gives "** cc" |
| Censor.IntendedSplit | src/apps/controllers/apis/comment.js:12-18 | the corrected censor also applies the words in list order: censoring with a list is censoring with its first words, then with the rest |
| Censor.WebWordsUnoverlapping | src/apps/controllers/web/comment.js:6-8 | every word of the display list meets the non-overlap condition, so the corrected scan stars all its occurrences |
| Censor.ApiWordsUnoverlapping | src/apps/controllers/apis/comment.js:4-6 | every API word meets the non-overlap condition, so the corrected pass replaces all its whole-word occurrences |
| CommentApi.NewComment | src/apps/controllers/apis/comment.js:79-86 | the stored comment belongs to the product, keeps the sent name and email, holds the censored content and starts pending (the schema default); the content is never longer than submitted, and is the submitted text when no API word occurs in it |
| CommentApi.Create | src/apps/controllers/apis/comment.js:58-100 | an empty name, then an empty email, then an empty content answers 400 with its message; content that is not text makes the censor throw (500); the collection changes exactly when the body passes and the insert succeeds, and then by appending the one new document with 201 |
| CommentApi.ModerationStatus | src/apps/controllers/apis/comment.js:107-112 | a status is accepted exactly when it is the text "pending" or "approved" |
| CommentApi.Moderated | src/apps/controllers/apis/comment.js:114-118 | only the document with the given id gets the status, and nothing else about any document changes |
| CommentApi.SetStatus | src/apps/controllers/apis/comment.js:114-118 | the collection keeps its length and order, and each document is moderated in place |
| CommentApi.UpdateStatus | src/apps/controllers/apis/comment.js:102-139 | the status is checked before the lookup: an invalid one answers 400 and an unknown id 404, both changing nothing; otherwise 200 and the document gets the status |
| CommentApi.Without | src/apps/controllers/apis/comment.js:144 | the result holds exactly the documents whose id differs from the given one |
| CommentApi.Remove | src/apps/controllers/apis/comment.js:141-165 | an unknown id answers 404 and changes nothing; otherwise 200 and the documents with that id are gone |
| CommentApi.Options | src/apps/controllers/apis/comment.js:24-38 | the filter is the product and the given status, "approved" by default; ascending order exactly when the sort parameter loosely equals `true`; page and limit never 0; skip is the number of entries on earlier pages |
| CommentApi.Matching | src/apps/controllers/apis/comment.js:39 | exactly the product's documents with the requested status are selected |
| CommentApi.Reverse | src/apps/controllers/apis/comment.js:34 | the newest-first order is the stored order backwards |
| CommentApi.Window | src/apps/controllers/apis/comment.js:40-41 | `.skip().limit()` returns a contiguous run starting at the skip, no longer than the limit's magnitude, and the whole rest when that fits |
| CommentApi.Listing | src/apps/controllers/apis/comment.js:39-42 | every listed comment is stored, belongs to the product and has the requested status, and a page holds at most the page size |
| CommentApi.FindByProductId | src/apps/controllers/apis/comment.js:22-56 | a negative skip `page*limit - limit` (a page below 1 with a positive limit, or above 1 with a negative one) is refused by the database (500); otherwise 200 with the listing and the page metadata for the number of matches |
| CommentApi.ListedComments | src/apps/controllers/apis/comment.js:22-48 | every listed comment belongs to the product and has the requested status, a page holds at most the page size, and the metadata reports the page and limit used |
| CommentApi.SortOneAscends | src/apps/controllers/apis/comment.js:31 | the sort texts "1" and "01" loosely equal `true`, so they list oldest first |
| CommentApi.SortTrueDescends | src/apps/controllers/apis/comment.js:31 | the text "true" converts to NaN and does not loosely equal `true`, so it, an empty and a missing sort list newest first |
| CommentApi.DefaultQuery | src/apps/controllers/apis/comment.js:28-38 | with no query the handler asks for the first ten approved comments, skipping none |
| CommentApi.FirstPageListsAll | src/apps/controllers/apis/comment.js:30-42 | a first page with room for every match lists them all, oldest first when ascending and newest first otherwise |
| CommentApi.OperationsKeepIdsUnique | src/apps/controllers/apis/comment.js:58-165 | creating with a fresh id, moderating and deleting keep the document ids unique |
| CommentApi.ModerationLifecycle | src/apps/controllers/apis/comment.js:81-118 | a new comment is pending, so no default listing shows a pending comment; once approved it is among the approved matches with its content unchanged |
| CommentApi.UpdateStatusIdempotent | src/apps/controllers/apis/comment.js:114-118 | repeating a status update gives the same reply and collection |
| CommentApi.CreateThenRemove | src/apps/controllers/apis/comment.js:81-144 | deleting a comment right after creating it answers 200 and restores the collection |
| Orders.ParseStatus | src/apps/models/order.js:29-33 | a text is read as a state only when it is that state's stored name |
| Orders.StatusNamesParse | src/apps/models/order.js:29-33 | every state's name reads back as that state, so the enum is exactly the five names |
| Orders.SetField | src/apps/models/order.js:8-23 | after the setters a contact field is trimmed, lower-cased for the email, and never longer than sent |
| Orders.RequiredField | src/apps/models/order.js:8-23 | a required field passes exactly when it was sent and is not blank after its setters, and then holds the normalised, non-empty text |
| Orders.Create | src/apps/models/order.js:2-54 | a document is stored exactly when the three contact fields pass, the total is at least 0 and every item has quantity at least 1 and price at least 0; the stored document satisfies every schema rule (`ValidOrder`: contact fields present and `Normal`, trimmed and the email lower-cased, and every item `ValidItem`), starts pending and keeps the customer id (null for a guest), items and total as given |
| Orders.CreateFixesValid | src/apps/models/order.js:8-23 | the setters are idempotent: re-creating a valid order from its own fields stores exactly those fields, pending |
| Orders.StatusChangeKeepsValid | src/apps/models/order.js:29-33 | changing only the state keeps a valid order valid |
| Orders.EmailSetterIgnoresCaseAndBlanks | src/apps/models/order.js:8-13 | padding an email with blanks or writing it in capitals stores the same text |
| Orders.NormalFixed | src/apps/models/order.js:8-23 | a field that is already normalised passes the setters unchanged |
| Orders.Upper | src/apps/models/order.js:11 | ASCII upper-casing changes exactly the lower-case ASCII letters and keeps the length |
| Orders.TotalAppend | src/apps/controllers/apis/order.js:45-48 | adding a line at the end adds its quantity times its price, so a running total kept in item order ends at the sum |
| Orders.ValidItemsTotal | src/apps/models/order.js:24-49 | items with quantity at least 1 and price at least 0 have a non-negative total, so the `totalPrice` minimum is implied by the item minimums |
| OrderApi.Quantity | src/apps/controllers/apis/order.js:46 | the quantity is `item.quantity` when non-zero, else `item.qty` when non-zero, else 1; it is never 0 |
| OrderApi.Refusal | src/apps/controllers/apis/order.js:31-44 | an item without a product id, or naming an unknown product, is answered with 400 |
| OrderApi.Line | src/apps/controllers/apis/order.js:45-53 | a resolved line records the product id, the quantity and the price the product has in the store |
| OrderApi.Collect | src/apps/controllers/apis/order.js:27-59 | the loop finishes exactly when every item resolves, and then yields, after the lines already collected, one line per item in input order with the running total equal to the sum of quantity times stored price; otherwise it answers with the refusal of the first item that does not resolve |
| OrderApi.OrderDraft | src/apps/controllers/apis/order.js:7-65 | the document to create carries the lines and total, and the attached customer's id, or none for a guest |
| OrderApi.Placed | src/apps/controllers/apis/order.js:5-65 | a stored order needs every item to resolve; it is valid, pending, has one line per requested item with the stored price, a total equal to the sum of its lines, and the attached customer's id or none |
| OrderApi.PlaceOrder | src/apps/controllers/apis/order.js:5-86 | a body without items answers 500; an unresolved item answers the first refusal and stores nothing; the collection changes exactly when an order can be stored, by that order under the new id; 201 exactly when it was stored and the mail went out; a failed mail answers 500 with the order already stored |
| OrderApi.FindByCustomerId | src/apps/controllers/apis/order.js:87-112 | without a customer the answer is 401; otherwise exactly the orders whose customer id is the caller's |
| OrderApi.FindOne | src/apps/controllers/apis/order.js:113-146 | the order is returned exactly when it exists and the caller may see it (a caller whose verified access token names no customer: a staff user's, or a deleted customer's; or the owner); an unknown id answers 404 and another owner's order 403; `MaySee` compares the caller's id with `OwnerText`, the order's customer id as text, "null" for a guest order |
| OrderApi.Cancel | src/apps/controllers/apis/order.js:147-191 | only the named order can change, and it does exactly when it exists, the caller may see it and it is pending or confirmed, becoming canceled; otherwise 404, 403, or 400 naming the current state, in that order; `Cancellable` names the two states that may be cancelled |
| OrderApi.OperationsKeepStoreValid | src/apps/models/order.js:2-54 | placing and cancelling keep every stored order valid under the schema |
| OrderApi.PlacedTotal | src/apps/controllers/apis/order.js:45-53 | the stored total is the sum of its lines, and each line is the requested product, quantity and stored price |
| OrderApi.ClientPricesIgnored | src/apps/controllers/apis/order.js:45-48 | two requests that differ only in the prices the client claims get the same answer and store the same order |
| OrderApi.FirstBadItemAnswers | src/apps/controllers/apis/order.js:27-44 | the answer is the refusal of the first bad item, whatever follows it, and nothing is stored |
| OrderApi.ZeroQuantityIsAbsent | src/apps/controllers/apis/order.js:46 | a quantity of 0 falls through exactly as an absent one, and with neither field the quantity is 1 |
| OrderApi.NegativeQuantityRejected | src/apps/controllers/apis/order.js:46-65 | a negative quantity passes the loop but fails the `min: 1` validator, so the request answers 500 and stores nothing |
| OrderApi.CustomerContactFromProfile | src/apps/controllers/apis/order.js:8-16 | with a customer attached the body's contact fields play no part; the stored contact fields are the customer's, normalised |
| OrderApi.GuestContactFromBody | src/apps/controllers/apis/order.js:17-21 | a guest order has no customer and stores the body's contact fields, normalised |
| OrderApi.MailFailureKeepsOrder | src/apps/controllers/apis/order.js:61-72 | a failing mail answers 500 while the new order stays stored |
| OrderApi.PlaceReadCancel | src/apps/controllers/apis/order.js:5-191 | a customer who just placed an order finds it in their list, reads it back, cancels it, and a second cancel is refused naming the canceled state |
| OrderApi.OwnerCancelsOnce | src/apps/controllers/apis/order.js:147-177 | the owner of a pending order cancels it once; the second attempt answers 400 and changes nothing |
| OrderApi.CancelIdempotent | src/apps/controllers/apis/order.js:169-177 | cancelling twice leaves the collection as after the first time |
| OrderApi.UnattachedCallerUnchecked | src/apps/controllers/apis/order.js:127-166 | when the verified access token names no customer (a staff user's, or a deleted customer's) there is no ownership check: any order can be read, and any open order cancelled |
| OrderApi.StaffTokenReadsAnyOrder | src/apps/controllers/apis/order.js:113-166 | an unexpired, unrevoked staff access token passes the customer access gate with no customer attached, because both kinds of token share the access key; with it every order is returned and every pending or confirmed order cancelled |
| OrderApi.OthersOrdersRefused | src/apps/controllers/apis/order.js:127-166 | a signed-in customer is refused another customer's order and every guest order, and nothing changes |
| OrderApi.CancelTransitions | src/apps/controllers/apis/order.js:169-177 | pending and confirmed orders become canceled; shipping, delivered and canceled orders keep their state |
| OrderApi.CollectIgnoresPrices | src/apps/controllers/apis/order.js:27-59 | the item loop gives the same lines, total or refusal for two item lists that differ only in the prices the client claims |
| AdminOrderApi.Options | src/apps/controllers/apis/adminOrder.js:12-18 | the status filter is set exactly when a status was given; page and limit are `Number(...) \|\| 1` and `\|\| 10`, never 0; skip is the number of entries on earlier pages |
| AdminOrderApi.FindAll | src/apps/controllers/apis/adminOrder.js:5-50 | orders are listed exactly for an admin caller with a non-negative skip; anyone else gets 403 before any query, and a negative skip 500; the listing selects exactly the orders the status filter matches and pages over their number |
| AdminOrderApi.AdminTarget | src/apps/controllers/apis/adminOrder.js:60-66 | a target is accepted exactly when it is one of the texts confirmed, shipping, delivered, canceled, and it is read as the state of that name |
| AdminOrderApi.Update | src/apps/controllers/apis/adminOrder.js:55-97 | the ids never change and only the named order can; an invalid target answers 400 and an unknown id 404, both changing nothing; otherwise 200 and the order takes the target state whatever its current one |
| AdminOrderApi.Remove | src/apps/controllers/apis/adminOrder.js:99-123 | the order is gone afterwards; the answer is 200 when it existed and 404 otherwise |
| AdminOrderApi.AdminTargets | src/apps/controllers/apis/adminOrder.js:60-66 | the accepted targets are exactly the names of the four states other than pending |
| AdminOrderApi.InvalidBeforeMissing | src/apps/controllers/apis/adminOrder.js:62-80 | an invalid target on a missing order answers 400, not 404 |
| AdminOrderApi.AnyStateReachable | src/apps/controllers/apis/adminOrder.js:69-73 | every state but pending is reachable from every state, with no transition rule |
| AdminOrderApi.AdminOverridesCustomerRule | src/apps/controllers/apis/adminOrder.js:69-73 | the admin can cancel a delivered order and revive a canceled one |
| AdminOrderApi.UpdateKeepsValidAndSettles | src/apps/controllers/apis/adminOrder.js:69-73 | updates keep every stored order valid, and repeating one changes nothing more |
| AdminOrderApi.RemoveThenMissing | src/apps/controllers/apis/adminOrder.js:69-109 | after a delete, deleting again or updating the order answers 404 |
| AdminOrderApi.MembersRefused | src/apps/controllers/apis/adminOrder.js:21-26 | a member or a missing user gets 403 and no listing |
| AdminOrderApi.StatusFilterSelects | src/apps/controllers/apis/adminOrder.js:12-14 | without a status every order is selected; a status naming no state selects none |
| AdminOrderApi.DefaultQuery | src/apps/controllers/apis/adminOrder.js:16-18 | the default query asks an admin's listing for the first page of ten, skipping none, with no filter |
| OrderPages.StatusFilter | src/apps/controllers/web/order.js:5-18 | the list filters by state exactly when the query's status is one of the five option texts, and then by the state of that name |
| OrderPages.ListFilter | src/apps/controllers/web/order.js:13-28 | a search term is used exactly when it is non-blank, and then trimmed; the id alternative is added exactly when the trimmed term looks like an id |
| OrderPages.ListNav | src/apps/controllers/web/order.js:9-49 | page `Number(page) \|\| 1` of ten; the page count is at least 1 and is the least number of ten-order pages holding every match; prev and next are the neighbours cut at 1 and at the page count; the link list is the compact pagination of that page |
| OrderPages.List | src/apps/controllers/web/order.js:7-60 | the list fails, redirecting to the dashboard, exactly when the trimmed search term is not a valid regular expression (`new RegExp` throws) or the page number is below 1 (a negative skip); otherwise it renders with the query's filter and navigation |
| OrderPages.DetailLineOf | src/apps/controllers/web/order.js:77-86 | a line keeps the stored item, shows its stored price and quantity times that price, and the product's name and thumbnail, or the deleted-product name and no picture when the product is gone |
| OrderPages.DetailLines | src/apps/controllers/web/order.js:77-86 | one rendered line per stored item, in stored order |
| OrderPages.Detail | src/apps/controllers/web/order.js:62-103 | the order is shown exactly when it exists, with its lines built item by item in stored order; otherwise a redirect to the list with the not-found message |
| OrderPages.FormStatus | src/apps/controllers/web/order.js:110 | a form status is accepted exactly when it is a string equal to one of the five option texts |
| OrderPages.UpdateStatus | src/apps/controllers/web/order.js:105-131 | only the named order can change; an unaccepted status goes back to the detail page and an unknown id to the list, both changing nothing; otherwise the order takes the state |
| OrderPages.Delete | src/apps/controllers/web/order.js:133-148 | the order is gone afterwards, and the flash says whether it existed |
| OrderPages.StatusFilterExact | src/apps/controllers/web/order.js:5-16 | the status filter accepts exactly the names of the five states |
| OrderPages.HexIdLooksLikeId | src/apps/controllers/web/order.js:22 | the text of every 12-byte ObjectId passes the id pattern |
| OrderPages.UpperIdFound | src/apps/controllers/web/order.js:22 | an id typed in capitals is still searched by id, the pattern being case-blind |
| OrderPages.IdFoundAsTyped | src/apps/controllers/web/order.js:20-22 | an id typed as is is searched by id |
| OrderPages.PaddedIdFound | src/apps/controllers/web/order.js:20-22 | an id typed after blanks is still searched by id |
| OrderPages.IdTermFound | src/apps/controllers/web/order.js:20-22 | a term whose blank-trimmed start is an id text and has nothing after it is searched by id |
| OrderPages.UpperKeepsId | src/apps/controllers/web/order.js:22 | upper-casing an id text keeps it an id text |
| OrderPages.NonIdTermsSearchText | src/apps/controllers/web/order.js:20-27 | a term that is not 24 hexadecimal digits after trimming is searched as text only, never by id |
| OrderPages.NavInRange | src/apps/controllers/web/order.js:39-49 | prev is at least 1 and next at most the page count; for a page in range they surround it |
| OrderPages.SubtotalsAddUp | src/apps/controllers/web/order.js:77-86 | the rendered subtotals add up to the sum of quantity times price over the stored items, the total an order is stored with |
| OrderPages.DeletedProductLine | src/apps/controllers/web/order.js:78-84 | a line whose product is gone shows the placeholder name, no picture, and still its stored price |
| OrderPages.PageSetsAnyState | src/apps/controllers/web/order.js:110-122 | the page sets any of the five states from any state, pending included, which the admin API refuses |
| OrderPages.RejectedFormsChangeNothing | src/apps/controllers/web/order.js:110-148 | unknown ids and unaccepted states change nothing, an accepted state on an unknown id redirects to the list, and deleting an unknown id redirects to the list with the not-found message |
| OrderPages.UpdateStatusKeepsValid | src/apps/controllers/web/order.js:121-122 | the page's updates keep every stored order valid |
| UserPages.RoleOrMember | src/apps/controllers/web/user.js:195-198 | a non-empty role is kept as given; a missing or empty one becomes `member` |
| UserPages.CreateProblem | src/apps/controllers/web/user.js:93-121 | a form passes exactly when email, password and confirmation are all non-empty, the two passwords agree, the password has at least six UTF-16 code units and no user has the email; a missing field is always reported first |
| UserPages.Create | src/apps/controllers/web/user.js:88-142 | the form's first problem is shown and nothing stored; a role outside the schema's enum shows the generic error; the users change exactly when the form passes with an allowed role, by appending the one new user with the hash and the role given or `member` |
| UserPages.Patched | src/apps/controllers/web/user.js:195-223 | only the user with the id changes, taking the new email and role and the new hash if one was given, else keeping the stored one; an unknown id changes nothing |
| UserPages.Update | src/apps/controllers/web/user.js:166-236 | a missing email, then an email another user holds, are reported first; a password is checked only when one is given; the edit succeeds exactly when every check passes, and only then is the store patched |
| UserPages.Without | src/apps/controllers/web/user.js:249 | removes one user with the id and keeps every other user |
| UserPages.Delete | src/apps/controllers/web/user.js:238-263 | the token record is revoked and dropped whatever the outcome, a missing record changing nothing there; the user is removed, and the flash says whether one was found |
| UserPages.CreateChecksInOrder | src/apps/controllers/web/user.js:100-112 | with every field present a mismatched confirmation is reported before the length, and the length before the email |
| UserPages.CreateKeepsUnique | src/apps/controllers/web/user.js:115-131 | creating keeps emails and ids unique, and the new user is found by email with the role given or `member` |
| UserPages.LengthInCodeUnits | src/apps/controllers/web/user.js:107 | the length rule counts UTF-16 code units, so three characters outside the Basic Multilingual Plane are long enough |
| UserPages.OmittedFieldsOnUpdate | src/apps/controllers/web/user.js:195-221 | an edit without a role makes the user a member, an admin included, and one without a password keeps the stored hash whatever the confirmation says |
| UserPages.OwnEmailAllowed | src/apps/controllers/web/user.js:182-186 | a user may keep their own email: only other users' emails count as taken |
| UserPages.UpdateKeepsUnique | src/apps/controllers/web/user.js:166-236 | edits keep emails and ids unique |
| UserPages.UpdateSkipsRoleEnum | src/apps/controllers/web/user.js:195-223 | an edit stores any role text, while creating with the same role stores nothing |
| UserPages.DeleteEndsSessions | src/apps/controllers/web/user.js:242-249 | after a delete the user and their token record are gone, the token store stays consistent, and a token of the old record that would still verify later is revoked then |
| CustomerPages.UpdateProblem | src/apps/controllers/web/customer.js:101-137 | a form passes exactly when the four fields are present and no other customer has its email or its phone; a missing field is reported first, then a taken email, then a taken phone |
| CustomerPages.Edited | src/apps/controllers/web/customer.js:139-147 | an edited customer keeps its id and password hash, takes the four form fields, and the role given or `customer` |
| CustomerPages.Update | src/apps/controllers/web/customer.js:96-160 | a failing form is shown with its first problem and nothing changes; otherwise only the customer with the id is edited and the page redirects to it, an unknown id changing nothing |
| CustomerPages.Delete | src/apps/controllers/web/customer.js:162-179 | an unknown id changes nothing; otherwise exactly one customer with the id goes, every other customer stays, and the flash says which |
| CustomerPages.EmailBeforePhone | src/apps/controllers/web/customer.js:111-137 | a form whose email and phone both belong to others is answered with the email message |
| CustomerPages.EditKeepsPassword | src/apps/controllers/web/customer.js:139-147 | an edit never touches the password hash, and leaving the role out makes the customer a plain `customer` |
| CustomerPages.UpdateKeepsUnique | src/apps/controllers/web/customer.js:111-147 | edits keep emails, phones and ids unique |
| CustomerPages.OwnContactAllowed | src/apps/controllers/web/customer.js:112-130 | a customer may keep their own email and phone |
| CustomerPages.DeleteRemoves | src/apps/controllers/web/customer.js:165-170 | with unique ids, the customer is gone after a delete, and deleting again changes nothing and reports the customer missing |

## Left out

- Database, Redis and network I/O: Mongoose queries become lookups in sequences or maps, Redis becomes the `Revocation` store, and a call's failure becomes a parameter (`RevocationConn`, `mailFails`). A query returns the first match in insertion order.
- `$or`, `$ne`, `$in` and `RegExp` searches built from raw input (the email and phone search of the user, customer and order lists): the regex engine is not modelled. Only the 24-hex-digit id test of the order search is, and whether the order search term compiles as a regular expression is a parameter of `OrderPages.List`.
- Sort orders by `createdAt` and `_id`, and so the exact contents of the order and comment list windows: the listings are modelled by the set they select, the count they page over and the query options they send.
- bcrypt: a password check is a `passwordMatches` parameter and a new hash a `hash` parameter.
- HMAC signing, base64url and the jsonwebtoken and jwt-decode internals: a token text is an injective encoding that names its key, so a token verifies only with its own secret.
- `Date.now`: every handler takes `nowMs`.
- Concurrency: the un-awaited calls are the replaced record's deletion inside `storeCustomerToken` (src/libs/token.service.js:6), `storeCustomerToken` itself in customer `login` (src/apps/controllers/apis/customerAuth.js:96), and `deleteCustomerToken` in `logout` and `resetPassword` (src/apps/controllers/apis/customerAuth.js:127 and :221). They are taken to finish in program order before the next step, and their errors are never seen. The blacklist writes before them are awaited. Interleavings and `Promise.all` fan-outs are not covered.
- Rendering, flash storage, cookies beyond their name and lifetime, redirects beyond their target and flash message, and the mail contents: a mail is recorded by its recipient and token.
- The catch-all 500 branches for failures the model has no cause for (ObjectId cast errors, a lost database connection): only the failures with a modelled cause are answered.
- `register`, the OAuth strategies and the social profile exchange: the social callback is modelled from the point where the strategy hands over a customer.
- src/apps/models/product.js, customer.js and user.js: their schemas are reduced to the fields the handlers read. src/apps/models/token.js is not part of this model beyond the record shape `TokenModel` stores.
- The ad listing handlers: they call `paginate(Model, options)` against the `(page, limit, query, model)` signature and always fail.
- The web comment list: it calls a module object as a function and always fails.
- Plain CRUD handlers with no decision logic (products, categories, users API, settings), the unrouted duplicate controllers and the express-validator rule arrays.
- Floating point: prices, totals, quantities and positions are integers, so a fractional or NaN quantity cannot arise. `Number` is modelled on integer texts only: any other text, a fraction or an exponent included, reads as NaN.
- Case folding: the censors fold ASCII letters and the Vietnamese letters of their own word lists, and the order setters lower-case ASCII letters only. The model does not cover case folding of other scripts.
- Orders.SetField: lower-cases the email with the ASCII-only `Lower`, where Mongoose's `lowercase: true` (src/apps/models/order.js:11) calls the full `String.prototype.toLowerCase`; an email with non-ASCII capitals is stored with them in the model.
- Censor.CensorProfanity: the text is scanned by code point, while the regular expressions, which have no `u` flag, scan UTF-16 code units. A character above U+FFFF is two `\W` units there, so when one follows a matched word its second unit is left to bound the next word: "cc😀cc" is stored as "**😀**", where the model gives "**😀cc".
- Censor.DisplayCensored: scans by code point in the same way, so "damn😀damn" is shown as "****😀****" by the page and as "****😀damn" by the model.
- Censor.ReplaceFrom: one pass scans by code point; after a match whose right delimiter is a character above U+FFFF, the source's next try starts at that character's second code unit, which the model cannot represent.
- Censor.HitAt: a delimiter is one code point; the source's `[\s\W]` takes one UTF-16 code unit, half of a character above U+FFFF.
- Censor.Delimiter: the same code-point reading of `([\s\W]|$)`.
- Non-string form fields: most fields are `Option<string>`; where a handler's behaviour depends on a field not being a string (the status of the comment and order updates, the ad form's flags and position, the image values, the comment content), the field is a `JsValue`.
- Pagination.CompactPagination: takes the page count as an integer. `buildCompactPagination` would also accept a fractional page count, which no caller passes.
- OrderApi.FindByCustomerId: states the set of orders returned, not their `createdAt` order.
- Banner.MergedListing: `updatedAt` is an integer per ad, and equal keys keep input order (JavaScript's sort is stable).

## Findings

| source | as written | input that shows it | evidently intended | confidence | as-written member | corrected member |
|---|---|---|---|---|---|---|
| src/apps/middlewares/userAuth.js:17-26 | the gates pass a callback as a third argument to `verify`, which takes two and returns a promise, so the callback never runs | any request with an unexpired access token freshly issued to a user | a valid token passes the gate with its claims attached, a bad one is answered 401 | high; not executed | Gates.UserGatesNeverPass | Gates.UserAccessGateAwaited |
| src/apps/middlewares/customerAuth.js:48-72 | the refresh gate never reads the blacklist | the refresh cookie of a customer who has logged out, before it expires | a refresh token revoked at logout no longer mints access tokens | medium; not executed | CustomerAuth.RefreshSurvivesLogout | Gates.CustomerRefreshGateChecked |
| src/apps/controllers/apis/customerAuth.js:147-175 | a known email is answered "Password reset link sent to your email.", an unknown one with the generic message, despite the comment at line 147 | two requests, one with a registered email and one without | one generic answer whether or not the account exists | high; not executed | CustomerAuth.ForgotPasswordRevealsAccount | CustomerAuth.ForgotPasswordUniformHides |
| src/apps/controllers/apis/customerAuth.js:213-221 | the new hash is saved before the blacklist call, which raises 404 when the customer has no token record | a reset for a customer who has logged out (no token record) | the reset completes with 200 | high; not executed | CustomerAuth.ResetAfterLogoutFails | CustomerAuth.ResetPasswordFixedCompletes |
| src/apps/controllers/apis/comment.js:13-17 | a match consumes the delimiter after the word, so it cannot bound the next occurrence | the content "cc cc" is stored as "** cc" | every whole-word occurrence of a listed word becomes "**" and the rest of the text is kept (`Censor.IntendedReplacesNext`) | high; not executed | Censor.ApiCensorKeepsSecond | Censor.CensorProfanityIntended |
| src/apps/controllers/web/comment.js:14-20 | the display censor's match consumes the delimiter in the same way | the comment "cc cc" is displayed as "** cc" | every bounded occurrence is masked | high; not executed | Censor.DisplayKeepsSecond | Censor.IntendedStarsEveryOccurrence |
| src/libs/token.service.js:4-12 | storing a pair blacklists the previous pair, which is the same text when the same principal logs in twice within one second | two logins of one customer 200 ms apart within the same second | the second login leaves a usable session | medium; not executed | TokenService.SameSecondReloginRevokesNewPair | TokenService.SameSecondReloginKeepsSession |
