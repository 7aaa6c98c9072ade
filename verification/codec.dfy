/** The token codec of src/libs/jwt.js. A token is signed claims plus issue and expiry
    times in NumericDate seconds (section 4.1.4 of RFC 7519). Signing is abstracted as
    naming the key; the text form is an injective, space-free encoding, which stands in
    for the compact serialisation. */
module Codec {
  import opened Js

  /** The three configured secrets `app.jwtAccessKey`, `app.jwtRefreshKey`, `app.jwtResetKey`. */
  datatype Key = AccessKey | RefreshKey | ResetKey

  /** The claim set `{id, email, role}`; a member that is `undefined` is absent from the token. */
  datatype Claims = Claims(id: Option<string>, email: Option<string>, role: Option<string>)

  /** What a token carries besides its times: session claims or the reset claim set `{id, isReset: true}`. */
  datatype Body = Session(claims: Claims) | ResetBody(resetId: Option<string>)

  datatype Token = Token(key: Key, body: Body, iat: nat, exp: nat)

  /** `expiresIn: "1d"` */
  const SESSION_LIFETIME: nat := 86400
  /** `expiresIn: "1h"` */
  const RESET_LIFETIME: nat := 3600

  /** The object handed to a generator: a stored document or the claims decoded from a token.
      `docRole` is `payload._doc.role`, absent when there is no `_doc`. */
  datatype Payload = Payload(
    underscoreId: Option<string>,
    id: Option<string>,
    email: Option<string>,
    role: Option<string>,
    docRole: Option<string>)

  /** `payload._id || payload.id` */
  function IdClaim(p: Payload): Option<string> {
    OrElse(p.underscoreId, p.id)
  }

  /** `payload.role || (payload._doc && payload._doc.role) || undefined` */
  function RoleClaim(p: Payload): (r: Option<string>)
    ensures r.None? || Present(r)
    ensures Present(p.role) ==> r == p.role
    ensures !Present(p.role) && Present(p.docRole) ==> r == p.docRole
    ensures !Present(p.role) && !Present(p.docRole) ==> r.None?
  {
    if Present(p.role) then p.role else if Present(p.docRole) then p.docRole else None
  }

  function ClaimsOf(p: Payload): Claims {
    Claims(IdClaim(p), p.email, RoleClaim(p))
  }

  /** `iat` is the current time floored to whole seconds. */
  function IssuedAt(nowMs: nat): nat {
    nowMs / 1000
  }

  function SessionToken(key: Key, p: Payload, nowMs: nat): Token {
    Token(key, Session(ClaimsOf(p)), IssuedAt(nowMs), IssuedAt(nowMs) + SESSION_LIFETIME)
  }

  /** `generateAccessToken` */
  function GenerateAccessToken(p: Payload, nowMs: nat): (t: string)
    ensures Decode(t) == Some(Token(AccessKey, Session(ClaimsOf(p)), nowMs / 1000, nowMs / 1000 + 86400))
  {
    RoundTrip(SessionToken(AccessKey, p, nowMs));
    Encode(SessionToken(AccessKey, p, nowMs))
  }

  /** `generateRefreshToken` */
  function GenerateRefreshToken(p: Payload, nowMs: nat): (t: string)
    ensures Decode(t) == Some(Token(RefreshKey, Session(ClaimsOf(p)), nowMs / 1000, nowMs / 1000 + 86400))
  {
    RoundTrip(SessionToken(RefreshKey, p, nowMs));
    Encode(SessionToken(RefreshKey, p, nowMs))
  }

  /** `generateResetToken` */
  function GenerateResetToken(p: Payload, nowMs: nat): (t: string)
    ensures Decode(t) == Some(Token(ResetKey, ResetBody(IdClaim(p)), nowMs / 1000, nowMs / 1000 + 3600))
  {
    var tok := Token(ResetKey, ResetBody(IdClaim(p)), IssuedAt(nowMs), IssuedAt(nowMs) + RESET_LIFETIME);
    RoundTrip(tok);
    Encode(tok)
  }

  /** The principal id a token names, whichever claim set it carries. */
  function TokenId(t: Token): Option<string> {
    match t.body
    case Session(c) => c.id
    case ResetBody(id) => id
  }

  /** The outcome of `jwt.verify`: the decoded token, `TokenExpiredError`, or any other error. */
  datatype Verdict = Valid(token: Token) | Expired | Invalid

  /** `jwt.verify(token, key)`: the text must decode and carry the key; only then is the
      expiry checked, and a token is expired once the current whole second reaches `exp`. */
  function Verify(text: string, key: Key, nowMs: nat): (v: Verdict)
    ensures v.Valid? <==> Decode(text).Some? && Decode(text).value.key == key && nowMs / 1000 < Decode(text).value.exp
    ensures v.Valid? ==> Decode(text) == Some(v.token)
    ensures v.Expired? <==> Decode(text).Some? && Decode(text).value.key == key && Decode(text).value.exp <= nowMs / 1000
  {
    match Decode(text)
    case None => Invalid
    case Some(t) =>
      if t.key != key then Invalid
      else if nowMs / 1000 >= t.exp then Expired
      else Valid(t)
  }

  /** `jwt.verify` on a value that may be `undefined` ("jwt must be provided"). */
  function VerifyOpt(text: Option<string>, key: Key, nowMs: nat): (v: Verdict)
    ensures text.None? ==> v == Invalid
  {
    match text
    case None => Invalid
    case Some(s) => Verify(s, key, nowMs)
  }

  /** `jwtDecode(token).exp`: the expiry read without checking the key; `None` when the text does not decode. */
  function PeekExpiry(text: string): (r: Option<nat>)
    ensures r.Some? <==> Decode(text).Some?
    ensures r.Some? ==> r.value == Decode(text).value.exp
  {
    match Decode(text)
    case None => None
    case Some(t) => Some(t.exp)
  }

  // ----- Text form -----

  const FIELD_END: char := '.'
  const ESCAPE: char := '%'

  function EscapeChar(c: char): string {
    if c == ESCAPE then [ESCAPE, ESCAPE]
    else if c == FIELD_END then [ESCAPE, 'd']
    else if c == ' ' then [ESCAPE, 's']
    else [c]
  }

  function Escape(s: string): (r: string)
    ensures ' ' !in r && FIELD_END !in r
  {
    if s == [] then [] else EscapeChar(s[0]) + Escape(s[1..])
  }

  function Join(fields: seq<string>): (r: string)
    ensures ' ' !in r
    ensures fields != [] ==> r != []
  {
    if fields == [] then [] else Escape(fields[0]) + [FIELD_END] + Join(fields[1..])
  }

  /** Reads one escaped field up to its terminator; returns the field and what follows. */
  function ReadField(s: string): (r: Option<(string, string)>)
    ensures r.Some? ==> |r.value.1| < |s|
  {
    if s == [] then None
    else if s[0] == FIELD_END then Some(([], s[1..]))
    else if s[0] == ESCAPE then
      if |s| < 2 then None
      else
        var c := if s[1] == ESCAPE then Some(ESCAPE) else if s[1] == 'd' then Some(FIELD_END)
                 else if s[1] == 's' then Some(' ') else None;
        if c.None? then None
        else match ReadField(s[2..])
          case None => None
          case Some(r) => Some(([c.value] + r.0, r.1))
    else match ReadField(s[1..])
      case None => None
      case Some(r) => Some(([s[0]] + r.0, r.1))
  }

  function Split(s: string): Option<seq<string>>
    decreases |s|
  {
    if s == [] then Some([])
    else match ReadField(s)
      case None => None
      case Some(r) =>
        match Split(r.1)
        case None => None
        case Some(rest) => Some([r.0] + rest)
  }

  function KeyText(k: Key): string {
    match k
    case AccessKey => "access"
    case RefreshKey => "refresh"
    case ResetKey => "reset"
  }

  function ParseKey(s: string): Option<Key> {
    if s == "access" then Some(AccessKey)
    else if s == "refresh" then Some(RefreshKey)
    else if s == "reset" then Some(ResetKey)
    else None
  }

  function OptText(o: Option<string>): string {
    match o
    case None => "-"
    case Some(s) => "+" + s
  }

  function ParseOpt(s: string): Option<Option<string>> {
    if s == "-" then Some(None)
    else if |s| >= 1 && s[0] == '+' then Some(Some(s[1..]))
    else None
  }

  function DigitChar(d: nat): (c: char)
    requires d < 10
    ensures '0' <= c <= '9' && DecimalValue(c) == d
  {
    ('0' as int + d) as char
  }

  function NatText(n: nat): (s: string)
    ensures s != []
    ensures forall i :: 0 <= i < |s| ==> '0' <= s[i] <= '9'
  {
    if n < 10 then [DigitChar(n)] else NatText(n / 10) + [DigitChar(n % 10)]
  }

  function ParseNat(s: string): Option<nat> {
    if s != [] && DigitRun(s, 10) == |s| then Some(DigitsValue(s, 10)) else None
  }

  function Fields(t: Token): seq<string> {
    match t.body
    case Session(c) =>
      [KeyText(t.key), "S", OptText(c.id), OptText(c.email), OptText(c.role), NatText(t.iat), NatText(t.exp)]
    case ResetBody(id) =>
      [KeyText(t.key), "R", OptText(id), NatText(t.iat), NatText(t.exp)]
  }

  function FromFields(fs: seq<string>): Option<Token> {
    if |fs| < 2 then None
    else
      var key := ParseKey(fs[0]);
      if key.None? then None
      else if fs[1] == "S" && |fs| == 7 then
        var id := ParseOpt(fs[2]);
        var email := ParseOpt(fs[3]);
        var role := ParseOpt(fs[4]);
        var iat := ParseNat(fs[5]);
        var exp := ParseNat(fs[6]);
        if id.None? || email.None? || role.None? || iat.None? || exp.None? then None
        else Some(Token(key.value, Session(Claims(id.value, email.value, role.value)), iat.value, exp.value))
      else if fs[1] == "R" && |fs| == 5 then
        var id := ParseOpt(fs[2]);
        var iat := ParseNat(fs[3]);
        var exp := ParseNat(fs[4]);
        if id.None? || iat.None? || exp.None? then None
        else Some(Token(key.value, ResetBody(id.value), iat.value, exp.value))
      else None
  }

  /** The token's text: what travels in headers and cookies and is stored in token records. */
  function Encode(t: Token): (s: string)
    ensures ' ' !in s && s != []
  {
    Join(Fields(t))
  }

  function Decode(s: string): Option<Token> {
    match Split(s)
    case None => None
    case Some(fs) => FromFields(fs)
  }

  // ----- Round trip -----

  lemma {:induction false} ReadEscaped(f: string, rest: string)
    ensures ReadField(Escape(f) + [FIELD_END] + rest) == Some((f, rest))
    decreases |f|
  {
    if f == [] {
      assert Escape(f) + [FIELD_END] + rest == [FIELD_END] + rest;
    } else {
      ReadEscaped(f[1..], rest);
      var tail := Escape(f[1..]) + [FIELD_END] + rest;
      var s := Escape(f) + [FIELD_END] + rest;
      assert s == EscapeChar(f[0]) + tail;
      if f[0] == ESCAPE || f[0] == FIELD_END || f[0] == ' ' {
        assert s[2..] == tail;
      } else {
        assert s[1..] == tail;
      }
      assert [f[0]] + f[1..] == f;
    }
  }

  lemma {:induction false} SplitJoin(fs: seq<string>)
    ensures Split(Join(fs)) == Some(fs)
    decreases |fs|
  {
    if fs != [] {
      var rest := Join(fs[1..]);
      assert Join(fs) == Escape(fs[0]) + [FIELD_END] + rest;
      ReadEscaped(fs[0], rest);
      SplitJoin(fs[1..]);
      assert [fs[0]] + fs[1..] == fs;
    }
  }

  lemma {:induction false} NatTextValue(n: nat)
    ensures DigitsValue(NatText(n), 10) == n
    decreases n
  {
    var s := NatText(n);
    if n >= 10 {
      NatTextValue(n / 10);
      assert s[..|s| - 1] == NatText(n / 10);
    }
  }

  lemma NatRoundTrip(n: nat)
    ensures ParseNat(NatText(n)) == Some(n)
  {
    NatTextValue(n);
  }

  lemma OptRoundTrip(o: Option<string>)
    ensures ParseOpt(OptText(o)) == Some(o)
  {
    match o
    case None =>
    case Some(s) =>
      assert OptText(o)[1..] == s;
  }

  /** Decoding the text of any token gives the token back. */
  lemma RoundTrip(t: Token)
    ensures Decode(Encode(t)) == Some(t)
  {
    SplitJoin(Fields(t));
    FieldsRoundTrip(t);
  }

  /** Reading back the fields of a token gives the token. */
  lemma FieldsRoundTrip(t: Token)
    ensures FromFields(Fields(t)) == Some(t)
  {
    NatRoundTrip(t.iat);
    NatRoundTrip(t.exp);
    match t.body
    case Session(c) =>
      OptRoundTrip(c.id);
      OptRoundTrip(c.email);
      OptRoundTrip(c.role);
    case ResetBody(id) =>
      OptRoundTrip(id);
  }

  /** Distinct tokens have distinct texts. */
  lemma EncodeInjective(t1: Token, t2: Token)
    requires Encode(t1) == Encode(t2)
    ensures t1 == t2
  {
    RoundTrip(t1);
    RoundTrip(t2);
  }

  // ----- Properties of issuance and verification -----

  /** Access and refresh tokens minted from one payload at one instant carry the same claims
      and times and differ only in the key. */
  lemma AccessRefreshDifferOnlyInKey(p: Payload, nowMs: nat)
    ensures var a := Decode(GenerateAccessToken(p, nowMs)).value;
            var r := Decode(GenerateRefreshToken(p, nowMs)).value;
            a.body == r.body && a.iat == r.iat && a.exp == r.exp && a.key != r.key
    ensures GenerateAccessToken(p, nowMs) != GenerateRefreshToken(p, nowMs)
  {
  }

  /** A token is unexpired exactly while the clock is before its `exp` second. */
  lemma UnexpiredBefore(nowMs: nat, exp: nat)
    ensures nowMs / 1000 < exp <==> nowMs < exp * 1000
  {
  }

  /** Round trip through verification: a token checked against its own key yields its
      claims until it expires, and `TokenExpiredError` from then on. */
  lemma VerifyOwnKey(t: Token, nowMs: nat)
    ensures nowMs / 1000 < t.exp ==> Verify(Encode(t), t.key, nowMs) == Valid(t)
    ensures t.exp <= nowMs / 1000 ==> Verify(Encode(t), t.key, nowMs) == Expired
  {
    RoundTrip(t);
  }

  /** Tokens minted for the same payload within the same second are the same text. */
  lemma SameSecondSameTokens(p: Payload, firstMs: nat, secondMs: nat)
    requires firstMs / 1000 == secondMs / 1000
    ensures GenerateAccessToken(p, firstMs) == GenerateAccessToken(p, secondMs)
    ensures GenerateRefreshToken(p, firstMs) == GenerateRefreshToken(p, secondMs)
  {
    assert SessionToken(AccessKey, p, firstMs) == SessionToken(AccessKey, p, secondMs);
    assert SessionToken(RefreshKey, p, firstMs) == SessionToken(RefreshKey, p, secondMs);
  }

  /** Cross-key rejection: a token checked against any other key is invalid, expired or not. */
  lemma VerifyOtherKey(t: Token, k: Key, nowMs: nat)
    requires k != t.key
    ensures Verify(Encode(t), k, nowMs) == Invalid
  {
    RoundTrip(t);
  }

  /** An access token verifies with the access key, yielding the payload's claims, for
      exactly one day after issue. */
  lemma AccessTokenLifetime(p: Payload, issuedMs: nat, nowMs: nat)
    ensures var v := Verify(GenerateAccessToken(p, issuedMs), AccessKey, nowMs);
            (v.Valid? <==> nowMs / 1000 < issuedMs / 1000 + 86400)
            && (v.Valid? ==> v.token.body == Session(ClaimsOf(p)))
            && (!v.Valid? ==> v == Expired)
  {
  }

  /** A reset token verifies with the reset key for one hour and never with the access key. */
  lemma ResetTokenLifetime(p: Payload, issuedMs: nat, nowMs: nat)
    ensures var v := Verify(GenerateResetToken(p, issuedMs), ResetKey, nowMs);
            (v.Valid? <==> nowMs / 1000 < issuedMs / 1000 + 3600)
            && (v.Valid? ==> TokenId(v.token) == IdClaim(p))
    ensures Verify(GenerateResetToken(p, issuedMs), AccessKey, nowMs) == Invalid
  {
  }

  /** The decoded claims handed back to a generator (`req.customer = decoded`): a plain
      object with `id`, `email`, `role` and no `_id` or `_doc`. */
  function DecodedPayload(t: Token): Payload {
    match t.body
    case Session(c) => Payload(None, c.id, c.email, c.role, None)
    case ResetBody(id) => Payload(None, id, None, None, None)
  }

  /** Re-issuing from a decoded session token reproduces its claims: an access token minted
      from a refresh token's payload names the same principal, email and role. */
  lemma ReissueKeepsClaims(p: Payload, issuedMs: nat, nowMs: nat)
    ensures var t := Decode(GenerateRefreshToken(p, issuedMs)).value;
            Decode(GenerateAccessToken(DecodedPayload(t), nowMs)).value.body == Session(ClaimsOf(p))
  {
  }

  /** A text that is the encoding of what it decodes to: every issued token is one. */
  predicate Canonical(s: string) {
    Decode(s).Some? && Encode(Decode(s).value) == s
  }

  lemma EncodedIsCanonical(t: Token)
    ensures Canonical(Encode(t))
    ensures ' ' !in Encode(t) && Encode(t) != ""
  {
    RoundTrip(t);
  }

  /** Issued tokens are canonical, so they never contain a space. */
  lemma IssuedCanonical(p: Payload, nowMs: nat)
    ensures Canonical(GenerateAccessToken(p, nowMs)) && ' ' !in GenerateAccessToken(p, nowMs) && GenerateAccessToken(p, nowMs) != ""
    ensures Canonical(GenerateRefreshToken(p, nowMs)) && ' ' !in GenerateRefreshToken(p, nowMs) && GenerateRefreshToken(p, nowMs) != ""
    ensures Canonical(GenerateResetToken(p, nowMs)) && ' ' !in GenerateResetToken(p, nowMs) && GenerateResetToken(p, nowMs) != ""
  {
    EncodedIsCanonical(SessionToken(AccessKey, p, nowMs));
    EncodedIsCanonical(SessionToken(RefreshKey, p, nowMs));
    EncodedIsCanonical(Token(ResetKey, ResetBody(IdClaim(p)), IssuedAt(nowMs), IssuedAt(nowMs) + RESET_LIFETIME));
  }
}
