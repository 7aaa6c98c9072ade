/** The session bookkeeping of src/libs/token.service.js: storing a freshly issued pair
    replaces the principal's previous record, and deleting a record first revokes its
    tokens. The customer and user variants differ in the 404 message and in whether a
    failure of the replaced record's deletion reaches the caller. */
module TokenService {
  import opened Js
  import opened Codec
  import opened TokenRecords
  import opened Revocation

  const NO_TOKEN_USER: string := "No Token found this user"

  /** The token collection together with the revocation list. */
  datatype Tokens = Tokens(records: Records, revoked: Store)

  /** What an awaited service call reports, and the state it leaves. */
  datatype Step = Step(outcome: Outcome, state: Tokens)

  /** The state every issued token leaves behind: one record per principal, each readable. */
  ghost predicate Consistent(st: Tokens) {
    AtMostOne(st.records) && WellFormed(st.records)
  }

  /** `deleteCustomerToken` / `deleteUserToken`: 404 when the principal has no record;
      otherwise revoke the record's tokens, then delete the record. A revocation failure
      stops before the delete but keeps the entries already written. */
  function DeleteToken(st: Tokens, id: string, nowMs: nat, message: string): (r: Step)
    ensures FindRecord(st.records, id).None? ==> r == Step(Raised(NoRecord(message)), st)
    ensures r.outcome.Raised? && FindRecord(st.records, id).Some? ==>
              r.outcome == Raised(Undecodable) && r.state.records == st.records
    ensures r.outcome == Done ==> FindRecord(st.records, id).Some? && r.state.records == RemoveFirst(st.records, id)
  {
    match FindRecord(st.records, id)
    case None => Step(Raised(NoRecord(message)), st)
    case Some(_) =>
      var b := AddTokenBlackList(st.records, st.revoked, id, nowMs);
      if b.outcome.Raised? then Step(b.outcome, Tokens(st.records, b.store))
      else Step(Done, Tokens(RemoveFirst(st.records, id), b.store))
  }

  /** `deleteCustomerToken`: a customer without a record gets the customer 404 message. */
  function DeleteCustomerToken(st: Tokens, id: string, nowMs: nat): (r: Step)
    ensures FindRecord(st.records, id).None? ==> r == Step(Raised(NoRecord(NO_TOKEN_CUSTOMER)), st)
    ensures r.outcome == Done ==> r.state.records == RemoveFirst(st.records, id)
  {
    DeleteToken(st, id, nowMs, NO_TOKEN_CUSTOMER)
  }

  /** `deleteUserToken`: a user without a record gets the user 404 message. */
  function DeleteUserToken(st: Tokens, id: string, nowMs: nat): (r: Step)
    ensures FindRecord(st.records, id).None? ==> r == Step(Raised(NoRecord(NO_TOKEN_USER)), st)
    ensures r.outcome == Done ==> r.state.records == RemoveFirst(st.records, id)
  {
    DeleteToken(st, id, nowMs, NO_TOKEN_USER)
  }

  /** `storeCustomerToken`: the previous record's deletion is started but not awaited, so
      its failure is never seen; the new record is saved regardless. The deletion is taken
      to complete before the save. */
  function StoreCustomerToken(st: Tokens, id: string, accessToken: string, refreshToken: string, nowMs: nat): (r: Tokens)
    ensures |r.records| >= 1 && r.records[|r.records| - 1] == TokenRecord(id, accessToken, refreshToken)
  {
    var cleared := Cleared(st, id, nowMs);
    Tokens(Save(cleared.records, TokenRecord(id, accessToken, refreshToken)), cleared.revoked)
  }

  /** `storeUserToken`: the previous record's deletion is awaited, so its failure is
      raised to the caller and nothing is saved. */
  function StoreUserToken(st: Tokens, id: string, accessToken: string, refreshToken: string, nowMs: nat): (r: Step)
    ensures r.outcome.Raised? ==> r.outcome == Raised(Undecodable) && FindRecord(st.records, id).Some?
    ensures r.outcome == Done ==> |r.state.records| >= 1 && r.state.records[|r.state.records| - 1] == TokenRecord(id, accessToken, refreshToken)
  {
    var rec := TokenRecord(id, accessToken, refreshToken);
    if FindRecord(st.records, id).Some? then
      var d := DeleteUserToken(st, id, nowMs);
      if d.outcome.Raised? then d
      else Step(Done, Tokens(Save(d.state.records, rec), d.state.revoked))
    else Step(Done, Tokens(Save(st.records, rec), st.revoked))
  }

  /** A successful delete: on a consistent state it cannot fail, it keeps the state
      consistent, leaves the principal with no record and every other principal's record
      in place, and revokes the deleted tokens for as long as they would verify. */
  lemma DeleteEffect(st: Tokens, id: string, nowMs: nat, message: string, other: string, later: nat, key: Key)
    requires Consistent(st) && FindRecord(st.records, id).Some?
    requires nowMs <= later
    ensures var prev := FindRecord(st.records, id).value;
            var r := DeleteToken(st, id, nowMs, message);
            && r.outcome == Done
            && Consistent(r.state)
            && FindRecord(r.state.records, id).None?
            && (other != id ==> FindRecord(r.state.records, other) == FindRecord(st.records, other))
            && (Verify(prev.accessToken, key, later).Valid? ==> IsRevoked(r.state.revoked, prev.accessToken, later))
            && (Verify(prev.refreshToken, key, later).Valid? ==> IsRevoked(r.state.revoked, prev.refreshToken, later))
  {
    FoundIsCanonical(st.records, id);
    BlacklistWrites(st.records, st.revoked, id, nowMs);
    RevokedWhileValid(st.records, st.revoked, id, nowMs, later, key);
    RemoveFirstKeeps(st.records, id);
    RemoveFirstEffect(st.records, id, other);
    FindIsFirstOf(st.records, other);
    FindIsFirstOf(RemoveFirst(st.records, id), other);
  }

  /** The state a store saves into: the principal's record is gone and its live tokens
      are revoked; nothing else differs. */
  function Cleared(st: Tokens, id: string, nowMs: nat): Tokens {
    if FindRecord(st.records, id).Some? then DeleteCustomerToken(st, id, nowMs).state else st
  }

  lemma ClearedEffect(st: Tokens, id: string, nowMs: nat, other: string, later: nat, key: Key)
    requires Consistent(st)
    requires nowMs <= later
    ensures var c := Cleared(st, id, nowMs);
            && Consistent(c)
            && FindRecord(c.records, id).None?
            && (other != id ==> FindRecord(c.records, other) == FindRecord(st.records, other))
            && (FindRecord(st.records, id).Some? ==>
                  var prev := FindRecord(st.records, id).value;
                  && (Verify(prev.accessToken, key, later).Valid? ==> IsRevoked(c.revoked, prev.accessToken, later))
                  && (Verify(prev.refreshToken, key, later).Valid? ==> IsRevoked(c.revoked, prev.refreshToken, later)))
  {
    if FindRecord(st.records, id).Some? {
      DeleteEffect(st, id, nowMs, NO_TOKEN_CUSTOMER, other, later, key);
    }
  }

  /** Storing a pair keeps the state consistent, makes the new pair the principal's one
      record, leaves every other principal's record in place, and revokes the replaced
      pair for as long as it would verify. */
  lemma StoreCustomerEffect(st: Tokens, id: string, accessToken: string, refreshToken: string, nowMs: nat,
                            other: string, later: nat, key: Key)
    requires Consistent(st)
    requires Canonical(accessToken) && Canonical(refreshToken)
    requires nowMs <= later
    ensures var r := StoreCustomerToken(st, id, accessToken, refreshToken, nowMs);
            && Consistent(r)
            && FindRecord(r.records, id) == Some(TokenRecord(id, accessToken, refreshToken))
            && (other != id ==> FindRecord(r.records, other) == FindRecord(st.records, other))
            && (FindRecord(st.records, id).Some? ==>
                  var prev := FindRecord(st.records, id).value;
                  && (Verify(prev.accessToken, key, later).Valid? ==> IsRevoked(r.revoked, prev.accessToken, later))
                  && (Verify(prev.refreshToken, key, later).Valid? ==> IsRevoked(r.revoked, prev.refreshToken, later)))
  {
    var rec := TokenRecord(id, accessToken, refreshToken);
    var c := Cleared(st, id, nowMs);
    ClearedEffect(st, id, nowMs, other, later, key);
    SaveKeeps(c.records, rec);
    SaveWellFormed(c.records, rec);
    if other != id {
      SaveEffect(c.records, rec, other);
      FindIsFirstOf(c.records, other);
      FindIsFirstOf(Save(c.records, rec), other);
    }
  }

  /** On a consistent state the awaited user variant never fails and ends in the same
      state as the customer variant: the two differ only in how a failure would travel. */
  lemma StoreUserAgrees(st: Tokens, id: string, accessToken: string, refreshToken: string, nowMs: nat)
    requires Consistent(st)
    ensures StoreUserToken(st, id, accessToken, refreshToken, nowMs)
            == Step(Done, StoreCustomerToken(st, id, accessToken, refreshToken, nowMs))
  {
    if FindRecord(st.records, id).Some? {
      DeleteEffect(st, id, nowMs, NO_TOKEN_USER, id, nowMs, AccessKey);
      DeleteEffect(st, id, nowMs, NO_TOKEN_CUSTOMER, id, nowMs, AccessKey);
    }
  }

  /** Two logins by the same principal within one second are issued identical texts, since
      signing is deterministic and `iat` has whole-second resolution. Storing the second
      pair revokes the first, which is the same text: the session just issued is already
      on the revocation list while its record is the current one. */
  lemma SameSecondReloginRevokesNewPair(st: Tokens, p: Payload, id: string, firstMs: nat, secondMs: nat)
    requires Consistent(st)
    requires firstMs <= secondMs && firstMs / 1000 == secondMs / 1000
    requires FindRecord(st.records, id)
             == Some(TokenRecord(id, GenerateAccessToken(p, firstMs), GenerateRefreshToken(p, firstMs)))
    ensures var a := GenerateAccessToken(p, secondMs);
            var r := StoreCustomerToken(st, id, a, GenerateRefreshToken(p, secondMs), secondMs);
            && a == GenerateAccessToken(p, firstMs)
            && FindRecord(r.records, id).value.accessToken == a
            && Verify(a, AccessKey, secondMs).Valid?
            && IsRevoked(r.revoked, a, secondMs)
  {
    var a := GenerateAccessToken(p, secondMs);
    var rt := GenerateRefreshToken(p, secondMs);
    SameSecondSameTokens(p, firstMs, secondMs);
    AccessTokenLifetime(p, secondMs, secondMs);
    IssuedCanonical(p, secondMs);
    StoreCustomerEffect(st, id, a, rt, secondMs, id, secondMs, AccessKey);
  }

  /** `storeCustomerToken` with the evident intent restored: a login that is issued the
      very pair already on record has nothing to replace, so the record and the revocation
      list stay as they are; any other pair is stored as written. */
  function StoreCustomerTokenFixed(st: Tokens, id: string, accessToken: string, refreshToken: string, nowMs: nat): (r: Tokens)
    ensures FindRecord(st.records, id) == Some(TokenRecord(id, accessToken, refreshToken)) ==> r == st
    ensures FindRecord(st.records, id) != Some(TokenRecord(id, accessToken, refreshToken)) ==>
              r == StoreCustomerToken(st, id, accessToken, refreshToken, nowMs)
  {
    if FindRecord(st.records, id) == Some(TokenRecord(id, accessToken, refreshToken)) then st
    else StoreCustomerToken(st, id, accessToken, refreshToken, nowMs)
  }

  /** With the guard, a second login within the same second keeps a usable session: the
      pair on record is the one just issued, its access token verifies, and it is revoked
      only if it already was. */
  lemma SameSecondReloginKeepsSession(st: Tokens, p: Payload, id: string, firstMs: nat, secondMs: nat)
    requires Consistent(st)
    requires firstMs <= secondMs && firstMs / 1000 == secondMs / 1000
    requires FindRecord(st.records, id)
             == Some(TokenRecord(id, GenerateAccessToken(p, firstMs), GenerateRefreshToken(p, firstMs)))
    requires !IsRevoked(st.revoked, GenerateAccessToken(p, firstMs), secondMs)
    ensures var a := GenerateAccessToken(p, secondMs);
            var r := StoreCustomerTokenFixed(st, id, a, GenerateRefreshToken(p, secondMs), secondMs);
            && Consistent(r)
            && FindRecord(r.records, id).value.accessToken == a
            && Verify(a, AccessKey, secondMs).Valid?
            && !IsRevoked(r.revoked, a, secondMs)
  {
    SameSecondSameTokens(p, firstMs, secondMs);
    AccessTokenLifetime(p, secondMs, secondMs);
  }
}
