/** The revocation list of src/libs/redis.token.js: a key-value store holding one entry
    `tb_<token>` = "revoked" per revoked token, each expiring (Redis `EXAT`) at the token's
    own `exp`, so an entry lives exactly as long as the token could still verify. */
module Revocation {
  import opened Js
  import opened Codec
  import opened TokenRecords

  const BLACKLIST_PREFIX: string := "tb_"
  const REVOKED_MARKER: string := "revoked"
  /** Message of the 404 raised when the principal has no token record. */
  const NO_TOKEN_CUSTOMER: string := "No Token found this customer"

  /** A stored value with its absolute expiry, in Unix seconds (`EXAT`). */
  datatype Entry = Entry(value: string, expireAt: nat)

  type Store = map<string, Entry>

  function BlacklistKey(token: string): string {
    BLACKLIST_PREFIX + token
  }

  /** Redis `GET` at `nowMs`: an entry with `EXAT` t is gone once the clock is past t seconds. */
  function Get(store: Store, key: string, nowMs: nat): (r: Option<string>)
    ensures r.Some? <==> key in store && nowMs <= store[key].expireAt * 1000
    ensures r.Some? ==> r.value == store[key].value
  {
    if key in store && nowMs <= store[key].expireAt * 1000 then Some(store[key].value) else None
  }

  /** `await clientRedis.get("tb_" + token)` taken as a truth value. */
  predicate IsRevoked(store: Store, token: string, nowMs: nat) {
    var v := Get(store, BlacklistKey(token), nowMs);
    v.Some? && v.value != ""
  }

  /** Why a revocation stopped: no record (404) or a stored token `jwtDecode` rejects. */
  datatype Failure = NoRecord(message: string) | Undecodable

  datatype Outcome = Done | Raised(failure: Failure)

  /** The outcome and the store as left behind, including writes made before a failure. */
  datatype Revoked = Revoked(outcome: Outcome, store: Store)

  /** One token's step: read its `exp` without checking the key, and write the entry when
      `exp > Date.now() / 1000`. `None` when `jwtDecode` throws. */
  function BlacklistOne(store: Store, token: string, nowMs: nat): (r: Option<Store>)
    ensures r.None? <==> Decode(token).None?
    ensures r.Some? && Decode(token).value.exp * 1000 > nowMs ==>
              r.value == store[BlacklistKey(token) := Entry(REVOKED_MARKER, Decode(token).value.exp)]
    ensures r.Some? && Decode(token).value.exp * 1000 <= nowMs ==> r.value == store
  {
    match PeekExpiry(token)
    case None => None
    case Some(exp) =>
      if exp * 1000 > nowMs then Some(store[BlacklistKey(token) := Entry(REVOKED_MARKER, exp)])
      else Some(store)
  }

  /** `addTokenBlackList(id)`: revoke both tokens of the principal's first record. */
  function AddTokenBlackList(records: Records, store: Store, id: string, nowMs: nat): (r: Revoked)
    ensures FindRecord(records, id).None? <==> r.outcome == Raised(NoRecord(NO_TOKEN_CUSTOMER))
    ensures FindRecord(records, id).None? ==> r.store == store
    ensures r.outcome.Raised? && FindRecord(records, id).Some? ==> r.outcome.failure == Undecodable
  {
    match FindRecord(records, id)
    case None => Revoked(Raised(NoRecord(NO_TOKEN_CUSTOMER)), store)
    case Some(rec) =>
      match BlacklistOne(store, rec.accessToken, nowMs)
      case None => Revoked(Raised(Undecodable), store)
      case Some(s1) =>
        match BlacklistOne(s1, rec.refreshToken, nowMs)
        case None => Revoked(Raised(Undecodable), s1)
        case Some(s2) => Revoked(Done, s2)
  }

  /** A token whose `exp` is still ahead. */
  predicate Live(token: string, nowMs: nat) {
    Decode(token).Some? && Decode(token).value.exp * 1000 > nowMs
  }

  /** The store holds the revocation entry of the token, expiring with it. */
  predicate Written(store: Store, token: string)
    requires Decode(token).Some?
  {
    BlacklistKey(token) in store && store[BlacklistKey(token)] == Entry(REVOKED_MARKER, Decode(token).value.exp)
  }

  /** Two stores agree on every key but the entries of the given tokens. */
  ghost predicate SameBesides(s: Store, t: Store, keys: set<string>) {
    forall k :: k !in keys ==> (k in s <==> k in t) && (k in s ==> s[k] == t[k])
  }

  /** The keys a revocation of the record at `nowMs` may write. */
  function LiveKeys(rec: TokenRecord, nowMs: nat): set<string> {
    (if Live(rec.accessToken, nowMs) then {BlacklistKey(rec.accessToken)} else {})
    + (if Live(rec.refreshToken, nowMs) then {BlacklistKey(rec.refreshToken)} else {})
  }

  /** Which keys a successful revocation touches: the entries of the record's live tokens
      are set to "revoked" with the token's own expiry, and every other key is untouched. */
  lemma BlacklistWrites(records: Records, store: Store, id: string, nowMs: nat)
    requires FindRecord(records, id).Some?
    requires Decode(FindRecord(records, id).value.accessToken).Some?
    requires Decode(FindRecord(records, id).value.refreshToken).Some?
    ensures var rec := FindRecord(records, id).value;
            var r := AddTokenBlackList(records, store, id, nowMs);
            && r.outcome == Done
            && (Live(rec.accessToken, nowMs) ==> Written(r.store, rec.accessToken))
            && (Live(rec.refreshToken, nowMs) ==> Written(r.store, rec.refreshToken))
            && SameBesides(r.store, store, LiveKeys(rec, nowMs))
  {
    var rec := FindRecord(records, id).value;
    var s1 := BlacklistOne(store, rec.accessToken, nowMs).value;
    var s2 := BlacklistOne(s1, rec.refreshToken, nowMs).value;
    assert AddTokenBlackList(records, store, id, nowMs) == Revoked(Done, s2);
    if Live(rec.accessToken, nowMs) && rec.accessToken != rec.refreshToken {
      assert BlacklistKey(rec.accessToken) != BlacklistKey(rec.refreshToken) by {
        assert BlacklistKey(rec.accessToken)[3..] == rec.accessToken;
        assert BlacklistKey(rec.refreshToken)[3..] == rec.refreshToken;
      }
    }
  }

  /** A stored token that decodes but fails later on the refresh token leaves the access
      token's entry written: the failure is not rolled back. */
  lemma PartialRevocation(records: Records, store: Store, id: string, nowMs: nat)
    requires FindRecord(records, id).Some?
    requires Live(FindRecord(records, id).value.accessToken, nowMs)
    requires Decode(FindRecord(records, id).value.refreshToken).None?
    ensures var r := AddTokenBlackList(records, store, id, nowMs);
            r.outcome == Raised(Undecodable)
            && IsRevoked(r.store, FindRecord(records, id).value.accessToken, nowMs)
  {
  }

  /** Revocation lasts as long as the token does: after a successful revocation, every token
      of the record is reported revoked at any later instant at which it would still verify,
      with whichever key. */
  lemma RevokedWhileValid(records: Records, store: Store, id: string, nowMs: nat, later: nat, key: Key)
    requires WellFormed(records) && FindRecord(records, id).Some?
    requires nowMs <= later
    ensures var rec := FindRecord(records, id).value;
            var r := AddTokenBlackList(records, store, id, nowMs);
            && (Verify(rec.accessToken, key, later).Valid? ==> IsRevoked(r.store, rec.accessToken, later))
            && (Verify(rec.refreshToken, key, later).Valid? ==> IsRevoked(r.store, rec.refreshToken, later))
  {
    var rec := FindRecord(records, id).value;
    FoundIsCanonical(records, id);
    BlacklistWrites(records, store, id, nowMs);
    UnexpiredBefore(later, Decode(rec.accessToken).value.exp);
    UnexpiredBefore(later, Decode(rec.refreshToken).value.exp);
  }

  /** Revoking twice at the same instant leaves the store as revoking once. */
  lemma BlacklistIdempotent(records: Records, store: Store, id: string, nowMs: nat)
    ensures var once := AddTokenBlackList(records, store, id, nowMs);
            AddTokenBlackList(records, once.store, id, nowMs).store == once.store
  {
  }
}
