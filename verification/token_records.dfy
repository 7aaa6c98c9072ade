/** The token collection behind `TokenModel`: one document per login holding the
    principal's id (`customerId`, shared by customers and users) and the issued pair.
    The collection is a sequence in insertion order, so that `findOne` and `deleteOne`
    act on the first match and "at most one record per principal" is a property to be
    kept rather than a given. */
module TokenRecords {
  import opened Js
  import Codec

  datatype TokenRecord = TokenRecord(principalId: string, accessToken: string, refreshToken: string)

  type Records = seq<TokenRecord>

  /** `TokenModel.findOne({customerId: id})`: the first record of the principal. */
  function FindRecord(rs: Records, id: string): (r: Option<TokenRecord>)
    ensures r.None? <==> forall i :: 0 <= i < |rs| ==> rs[i].principalId != id
    ensures r.Some? ==> r.value in rs && r.value.principalId == id
  {
    if rs == [] then None
    else if rs[0].principalId == id then Some(rs[0])
    else FindRecord(rs[1..], id)
  }

  /** `TokenModel.deleteOne({customerId: id})`: removes the first record of the principal. */
  function RemoveFirst(rs: Records, id: string): (r: Records)
    ensures |r| == if FindRecord(rs, id).Some? then |rs| - 1 else |rs|
    ensures forall x :: x in r ==> x in rs
  {
    if rs == [] then []
    else if rs[0].principalId == id then rs[1..]
    else [rs[0]] + RemoveFirst(rs[1..], id)
  }

  /** `new TokenModel({...}).save()`: appends one record. */
  function Save(rs: Records, rec: TokenRecord): (r: Records)
    ensures |r| == |rs| + 1 && r[|rs|] == rec && r[..|rs|] == rs
  {
    rs + [rec]
  }

  /** The records of one principal, in order. */
  function RecordsOf(rs: Records, id: string): (r: seq<TokenRecord>)
    ensures |r| <= |rs|
    ensures forall x :: x in r <==> x in rs && x.principalId == id
  {
    if rs == [] then []
    else (if rs[0].principalId == id then [rs[0]] else []) + RecordsOf(rs[1..], id)
  }

  /** No principal has two records. */
  ghost predicate AtMostOne(rs: Records) {
    forall id :: |RecordsOf(rs, id)| <= 1
  }

  /** Every stored token is an issued text, so `jwtDecode` can read it back. */
  ghost predicate WellFormed(rs: Records) {
    forall x :: x in rs ==> Codec.Canonical(x.accessToken) && Codec.Canonical(x.refreshToken)
  }

  /** `findOne` agrees with the filter: it returns the first of the principal's records. */
  lemma {:induction false} FindIsFirstOf(rs: Records, id: string)
    ensures FindRecord(rs, id).None? <==> RecordsOf(rs, id) == []
    ensures FindRecord(rs, id).Some? ==> FindRecord(rs, id).value == RecordsOf(rs, id)[0]
  {
    if rs != [] {
      FindIsFirstOf(rs[1..], id);
    }
  }

  /** `deleteOne` removes exactly the first record of the principal and leaves every other
      principal's records as they were. */
  lemma {:induction false} RemoveFirstEffect(rs: Records, id: string, other: string)
    ensures RecordsOf(RemoveFirst(rs, id), id) ==
            if RecordsOf(rs, id) == [] then [] else RecordsOf(rs, id)[1..]
    ensures other != id ==> RecordsOf(RemoveFirst(rs, id), other) == RecordsOf(rs, other)
  {
    if rs != [] {
      RemoveFirstEffect(rs[1..], id, other);
      if rs[0].principalId != id {
        assert RemoveFirst(rs, id) == [rs[0]] + RemoveFirst(rs[1..], id);
        assert ([rs[0]] + RemoveFirst(rs[1..], id))[1..] == RemoveFirst(rs[1..], id);
      }
    }
  }

  /** Saving adds the record at the end of its principal's list and nowhere else. */
  lemma {:induction false} SaveEffect(rs: Records, rec: TokenRecord, other: string)
    ensures RecordsOf(Save(rs, rec), rec.principalId) == RecordsOf(rs, rec.principalId) + [rec]
    ensures other != rec.principalId ==> RecordsOf(Save(rs, rec), other) == RecordsOf(rs, other)
  {
    if rs != [] {
      assert Save(rs, rec)[1..] == Save(rs[1..], rec);
      SaveEffect(rs[1..], rec, other);
    }
  }

  /** Removing a record keeps the invariant and the well-formedness, and leaves the
      principal with no record. */
  lemma RemoveFirstKeeps(rs: Records, id: string)
    requires AtMostOne(rs) && WellFormed(rs)
    ensures AtMostOne(RemoveFirst(rs, id)) && WellFormed(RemoveFirst(rs, id))
    ensures FindRecord(RemoveFirst(rs, id), id).None?
  {
    var r := RemoveFirst(rs, id);
    forall other
      ensures |RecordsOf(r, other)| <= 1
    {
      RemoveFirstEffect(rs, id, other);
    }
    assert |RecordsOf(rs, id)| <= 1;
    RemoveFirstEffect(rs, id, id);
    assert RecordsOf(r, id) == [];
    FindIsFirstOf(r, id);
  }

  /** Saving a record for a principal that has none keeps the invariant, and `findOne`
      then returns that record. */
  lemma SaveKeeps(rs: Records, rec: TokenRecord)
    requires AtMostOne(rs) && FindRecord(rs, rec.principalId).None?
    ensures AtMostOne(Save(rs, rec))
    ensures FindRecord(Save(rs, rec), rec.principalId) == Some(rec)
  {
    FindIsFirstOf(rs, rec.principalId);
    forall other
      ensures |RecordsOf(Save(rs, rec), other)| <= 1
    {
      SaveEffect(rs, rec, other);
    }
    SaveEffect(rs, rec, rec.principalId);
    FindIsFirstOf(Save(rs, rec), rec.principalId);
  }

  /** Saving a readable record keeps every stored token readable. */
  lemma SaveWellFormed(rs: Records, rec: TokenRecord)
    requires WellFormed(rs)
    requires Codec.Canonical(rec.accessToken) && Codec.Canonical(rec.refreshToken)
    ensures WellFormed(Save(rs, rec))
  {
    forall x | x in Save(rs, rec)
      ensures Codec.Canonical(x.accessToken) && Codec.Canonical(x.refreshToken)
    {
      assert x in rs || x == rec;
    }
  }

  /** The record `findOne` returns from a well-formed collection is readable. */
  lemma FoundIsCanonical(rs: Records, id: string)
    requires WellFormed(rs) && FindRecord(rs, id).Some?
    ensures Codec.Canonical(FindRecord(rs, id).value.accessToken)
    ensures Codec.Canonical(FindRecord(rs, id).value.refreshToken)
  {
    assert FindRecord(rs, id).value in rs;
  }
}
