/** The comment API of src/apps/controllers/apis/comment.js: creating a comment (its
    content censored by the API word list), moderating its status, deleting it, and the
    query a product page sends for its comments. The collection is a sequence of documents
    in `_id` order, which is creation order. */
module CommentApi {
  import opened Js
  import opened Http
  import Censor
  import Pagination

  /** The `status` enum of src/apps/models/comment.js. */
  datatype Status = Pending | Approved | Active | Inactive

  function StatusName(st: Status): string {
    match st
    case Pending => "pending"
    case Approved => "approved"
    case Active => "active"
    case Inactive => "inactive"
  }

  /** A stored comment: `name` and `email` are optional in the schema. */
  datatype Comment = Comment(productId: string, name: Option<string>, email: Option<string>,
                             content: string, status: Status)

  datatype Doc = Doc(id: string, comment: Comment)

  /** The request body `create` reads. */
  datatype CommentBody = CommentBody(name: Option<string>, email: Option<string>, content: JsValue)

  const INTERNAL_ERROR: string := "Internal server error"
  const INVALID_STATUS: string := "Invalid status value. Must be 'pending' or 'approved'."

  predicate HasId(store: seq<Doc>, id: string) {
    exists d :: d in store && d.id == id
  }

  /** No two documents share an id. */
  predicate UniqueIds(store: seq<Doc>) {
    forall i, j :: 0 <= i < j < |store| ==> store[i].id != store[j].id
  }

  // ----- create -----

  /** The body passes the three emptiness checks and its content is text, so that the
      censor's `replace` can run on it. */
  predicate Accepted(body: CommentBody) {
    body.name != Some("") && body.email != Some("") && body.content.Str? && body.content.s != ""
  }

  /** The comment `create` stores for an accepted body: censored content, default status. */
  function NewComment(productId: string, body: CommentBody): (c: Comment)
    requires Accepted(body)
    ensures c.status == Pending && c.productId == productId
    ensures c.name == body.name && c.email == body.email
    ensures c.content == Censor.CensorProfanity(body.content.s)
    ensures |c.content| <= |body.content.s|
    ensures Censor.Clean(body.content.s, Censor.API_WORDS) ==> c.content == body.content.s
  {
    Comment(productId, body.name, body.email, Censor.CensorProfanity(body.content.s), Pending)
  }

  /** `create`: `newId` is the id the database assigns, `saveFails` a failed insert (an
      invalid product id, say). The name, email and content checks run in that order, and
      only the exact empty text fails them; a content that is not text makes the censor
      throw, which ends in 500. */
  function Create(store: seq<Doc>, productId: string, body: CommentBody, newId: string, saveFails: bool): (r: (Reply, seq<Doc>))
    ensures body.name == Some("") ==> r == (Reply(400, "Name is required"), store)
    ensures body.name != Some("") && body.email == Some("") ==> r == (Reply(400, "Email is required"), store)
    ensures body.name != Some("") && body.email != Some("") && body.content == Str("") ==>
              r == (Reply(400, "Content is required"), store)
    ensures body.name != Some("") && body.email != Some("") && body.content != Str("") && !Accepted(body) ==>
              r == (Reply(500, INTERNAL_ERROR), store)
    ensures r.1 != store <==> Accepted(body) && !saveFails
    ensures Accepted(body) && saveFails ==> r == (Reply(500, INTERNAL_ERROR), store)
    ensures r.1 != store ==>
              && r.0 == Reply(201, "Comment created successfully (Profanity filtered)")
              && r.1 == store + [Doc(newId, NewComment(productId, body))]
  {
    if body.name == Some("") then (Reply(400, "Name is required"), store)
    else if body.email == Some("") then (Reply(400, "Email is required"), store)
    else if body.content == Str("") then (Reply(400, "Content is required"), store)
    else if !body.content.Str? then (Reply(500, INTERNAL_ERROR), store)
    else if saveFails then (Reply(500, INTERNAL_ERROR), store)
    else
      var r := store + [Doc(newId, NewComment(productId, body))];
      assert |r| != |store|;
      (Reply(201, "Comment created successfully (Profanity filtered)"), r)
  }

  // ----- updateStatus -----

  /** `!status || !["pending", "approved"].includes(status)` fails exactly for anything but
      these two texts. */
  function ModerationStatus(v: JsValue): (st: Option<Status>)
    ensures st.Some? <==> v == Str("pending") || v == Str("approved")
    ensures st.Some? ==> v == Str(StatusName(st.value))
  {
    if v == Str("pending") then Some(Pending)
    else if v == Str("approved") then Some(Approved)
    else None
  }

  /** The document with `status` written into it when its id is `id`. */
  function Moderated(d: Doc, id: string, st: Status): (e: Doc)
    ensures e.id == d.id
    ensures e.comment.status == (if d.id == id then st else d.comment.status)
    ensures e.comment.(status := d.comment.status) == d.comment
  {
    if d.id == id then Doc(d.id, d.comment.(status := st)) else d
  }

  /** The documents with `status` written into the one whose id is `id`. */
  function SetStatus(store: seq<Doc>, id: string, st: Status): (r: seq<Doc>)
    ensures |r| == |store|
    ensures forall i :: 0 <= i < |r| ==> r[i] == Moderated(store[i], id, st)
  {
    if store == [] then [] else [Moderated(store[0], id, st)] + SetStatus(store[1..], id, st)
  }

  /** `updateStatus`: the status is checked before the lookup. */
  function UpdateStatus(store: seq<Doc>, id: string, status: JsValue): (r: (Reply, seq<Doc>))
    ensures ModerationStatus(status).None? ==> r == (Reply(400, INVALID_STATUS), store)
    ensures ModerationStatus(status).Some? && !HasId(store, id) ==> r == (Reply(404, "Comment not found"), store)
    ensures ModerationStatus(status).Some? && HasId(store, id) ==>
              && r.0 == Reply(200, "Comment status updated to " + status.s + " successfully")
              && r.1 == SetStatus(store, id, ModerationStatus(status).value)
  {
    match ModerationStatus(status)
    case None => (Reply(400, INVALID_STATUS), store)
    case Some(st) =>
      if !HasId(store, id) then (Reply(404, "Comment not found"), store)
      else (Reply(200, "Comment status updated to " + StatusName(st) + " successfully"), SetStatus(store, id, st))
  }

  // ----- remove -----

  /** The documents whose id is not `id`, in their order. */
  function Without(store: seq<Doc>, id: string): (r: seq<Doc>)
    ensures forall d :: d in r <==> d in store && d.id != id
    ensures |r| <= |store|
  {
    if store == [] then []
    else (if store[0].id == id then [] else [store[0]]) + Without(store[1..], id)
  }

  /** `remove` */
  function Remove(store: seq<Doc>, id: string): (r: (Reply, seq<Doc>))
    ensures !HasId(store, id) ==> r == (Reply(404, "Comment not found"), store)
    ensures HasId(store, id) ==> r == (Reply(200, "Comment deleted successfully"), Without(store, id))
  {
    if HasId(store, id) then (Reply(200, "Comment deleted successfully"), Without(store, id))
    else (Reply(404, "Comment not found"), store)
  }

  // ----- findByProductId -----

  /** The query string `findByProductId` reads. */
  datatype ListQuery = ListQuery(status: Option<string>, sort: Option<string>, page: Option<string>, limit: Option<string>)

  /** The filter, sort, paging and page size the handler builds from a query. */
  datatype FindOptions = FindOptions(productId: string, status: string, ascending: bool, page: int, limit: int, skip: int)

  /** `req.query.sort && req.query.sort == true`: a non-empty text that converts to the
      number 1, the number `true` converts to. */
  predicate SortsAscending(sort: Option<string>) {
    Present(sort) && ToNumber(sort.value) == Some(1)
  }

  function Options(productId: string, q: ListQuery): (o: FindOptions)
    ensures o.productId == productId
    ensures o.status == (if Present(q.status) then q.status.value else "approved")
    ensures o.ascending <==> SortsAscending(q.sort)
    ensures o.page != 0 && o.limit != 0
    ensures o.skip == (o.page - 1) * o.limit
  {
    var page := NumberOr(q.page, 1);
    var limit := NumberOr(q.limit, 10);
    Pagination.SkipArithmetic(page, limit);
    FindOptions(productId, if Present(q.status) then q.status.value else "approved",
                SortsAscending(q.sort), page, limit, page * limit - limit)
  }

  /** The documents of the product with the given status, in `_id` order. */
  function Matching(store: seq<Doc>, productId: string, status: string): (r: seq<Doc>)
    ensures forall d :: d in r <==> d in store && d.comment.productId == productId && StatusName(d.comment.status) == status
    ensures |r| <= |store|
  {
    if store == [] then []
    else
      var d := store[0];
      (if d.comment.productId == productId && StatusName(d.comment.status) == status then [d] else [])
        + Matching(store[1..], productId, status)
  }

  function Reverse<T>(s: seq<T>): (r: seq<T>)
    ensures |r| == |s|
    ensures forall i :: 0 <= i < |s| ==> r[i] == s[|s| - 1 - i]
  {
    if s == [] then [] else Reverse(s[1..]) + [s[0]]
  }

  /** Reversing keeps the elements. */
  lemma ReverseSameElements<T>(s: seq<T>, x: T)
    ensures x in Reverse(s) <==> x in s
  {
    var r := Reverse(s);
    if x in s {
      var i :| 0 <= i < |s| && s[i] == x;
      assert r[|s| - 1 - i] == x;
    }
  }

  /** `.skip(skip).limit(limit)` on a cursor; a negative limit returns as many documents as
      its absolute value. */
  function Window<T>(s: seq<T>, skip: nat, limit: int): (r: seq<T>)
    ensures |r| <= (if limit < 0 then -limit else limit)
    ensures skip <= |s| ==> |r| <= |s| - skip && r == s[skip..skip + |r|]
    ensures skip <= |s| && |s| - skip <= (if limit < 0 then -limit else limit) ==> r == s[skip..]
    ensures forall x :: x in r ==> x in s
  {
    var n := if limit < 0 then -limit else limit;
    if skip >= |s| then [] else if |s| - skip <= n then s[skip..] else s[skip..skip + n]
  }

  /** The comments `findByProductId` lists for a query: the matching ones, oldest or newest
      first, then the page's window. Each belongs to the product and has the requested
      status, and there are at most as many as the page size. */
  function Listing(store: seq<Doc>, o: FindOptions): (r: seq<Doc>)
    requires o.skip >= 0
    ensures |r| <= (if o.limit < 0 then -o.limit else o.limit)
    ensures forall d :: d in r ==> d in store && d.comment.productId == o.productId && StatusName(d.comment.status) == o.status
  {
    var all := Matching(store, o.productId, o.status);
    var ordered := if o.ascending then all else Reverse(all);
    forall d | d in ordered ensures d in all {
      if !o.ascending { ReverseSameElements(all, d); }
    }
    Window(ordered, o.skip, o.limit)
  }

  /** `findByProductId`: the listing and the page metadata. A negative skip (a page below 1)
      makes the database reject the query. */
  function FindByProductId(store: seq<Doc>, productId: string, q: ListQuery): (r: (Reply, seq<Doc>, Option<Pagination.PageMeta>))
    ensures var o := Options(productId, q);
            && (o.skip < 0 ==> r == (Reply(500, INTERNAL_ERROR), [], None))
            && (o.skip >= 0 ==> r.0 == Reply(200, "Get comments successfully") && r.1 == Listing(store, o))
            && (o.skip >= 0 ==> r.2 == Some(Pagination.Paginate(o.page, o.limit, |Matching(store, productId, o.status)|)))
  {
    var o := Options(productId, q);
    if o.skip < 0 then (Reply(500, INTERNAL_ERROR), [], None)
    else
      (Reply(200, "Get comments successfully"), Listing(store, o),
       Some(Pagination.Paginate(o.page, o.limit, |Matching(store, productId, o.status)|)))
  }

  /** Every comment a query lists belongs to the product and has the requested status (by
      default "approved"); a page holds at most the page size. */
  lemma ListedComments(store: seq<Doc>, productId: string, q: ListQuery)
    requires Options(productId, q).skip >= 0
    ensures var o := Options(productId, q);
            var r := FindByProductId(store, productId, q);
            && r.0.status == 200
            && (forall d :: d in r.1 ==> d in store && d.comment.productId == productId && StatusName(d.comment.status) == o.status)
            && |r.1| <= (if o.limit < 0 then -o.limit else o.limit)
            && r.2.Some? && r.2.value.page == o.page && r.2.value.limit == o.limit
  {
    var o := Options(productId, q);
    var m := Pagination.Paginate(o.page, o.limit, |Matching(store, productId, o.status)|);
    var listed := Listing(store, o);
    assert FindByProductId(store, productId, q) == (Reply(200, "Get comments successfully"), listed, Some(m));
  }

  // ----- Properties -----

  /** A text of decimal digits converts to its value. */
  lemma DigitsToNumber(t: string)
    requires t != [] && forall i :: 0 <= i < |t| ==> '0' <= t[i] <= '9'
    ensures DigitRun(t, 10) == |t|
    ensures ToNumber(t) == Some(DigitsValue(t, 10) as int)
  {
    DigitsRun(t);
    assert '0' <= t[0] <= '9' && '0' <= t[|t| - 1] <= '9';
    TrimOfTrimmed(t);
    NumberOfUnsigned(t);
  }

  /** `Number` of a trimmed unsigned digit run is its value. */
  lemma NumberOfUnsigned(t: string)
    requires t != [] && Trim(t) == t && t[0] != '-' && t[0] != '+' && DigitRun(t, 10) == |t|
    ensures ToNumber(t) == Some(DigitsValue(t, 10) as int)
  {
  }

  lemma {:induction false} DigitsRun(t: string)
    requires forall i :: 0 <= i < |t| ==> '0' <= t[i] <= '9'
    ensures DigitRun(t, 10) == |t|
  {
    if t != [] {
      DigitsRun(t[1..]);
    }
  }

  /** A text starting with a letter converts to NaN. */
  lemma LetterToNaN(t: string)
    requires t != [] && 'a' <= t[0] <= 'z'
    ensures ToNumber(t) == None
  {
    var u := TrimStart(t);
    assert u == t;
    var v := TrimEnd(u);
    assert v != [] && v[0] == t[0];
    assert !IsRadixDigit(v[0], 10);
  }

  /** The sort flag compares loosely with `true`, which converts to 1: the texts "1" and
      "01" sort oldest first. */
  lemma SortOneAscends()
    ensures SortsAscending(Some("1")) && SortsAscending(Some("01"))
  {
    DigitsToNumber("1");
    assert DigitsValue("1", 10) == 1;
    LeadingZeroOne();
  }

  lemma LeadingZeroOne()
    ensures ToNumber("01") == Some(1)
  {
    DigitsToNumber("01");
    assert DigitsValue("01", 10) == 1 by { assert "01"[..1] == "0"; }
  }

  /** The word "true" converts to NaN, which equals nothing, so it sorts newest first; so
      do an empty and a missing flag. */
  lemma SortTrueDescends()
    ensures !SortsAscending(Some("true")) && !SortsAscending(Some("")) && !SortsAscending(None)
  {
    LetterToNaN("true");
  }

  /** With no paging parameters the handler shows the first ten approved comments, skipping
      none. */
  lemma DefaultQuery(productId: string, sort: Option<string>)
    ensures var o := Options(productId, ListQuery(None, sort, None, None));
            o.status == "approved" && o.page == 1 && o.limit == 10 && o.skip == 0
  {
  }

  /** The first page with room for every match lists them all: oldest first when sorting
      ascending, newest first otherwise. */
  lemma FirstPageListsAll(store: seq<Doc>, productId: string, q: ListQuery)
    requires Options(productId, q).page == 1
    requires |Matching(store, productId, Options(productId, q).status)| <= Options(productId, q).limit
    ensures var all := Matching(store, productId, Options(productId, q).status);
            FindByProductId(store, productId, q).1 == (if SortsAscending(q.sort) then all else Reverse(all))
  {
  }

  /** Creating, moderating and deleting comments keep ids unique. */
  lemma OperationsKeepIdsUnique(store: seq<Doc>, productId: string, body: CommentBody, newId: string, id: string, status: JsValue)
    requires UniqueIds(store) && !HasId(store, newId)
    ensures UniqueIds(Create(store, productId, body, newId, false).1)
    ensures UniqueIds(UpdateStatus(store, id, status).1)
    ensures UniqueIds(Remove(store, id).1)
  {
    if Accepted(body) {
      AppendKeepsIdsUnique(store, Doc(newId, NewComment(productId, body)));
    }
    SetStatusKeepsIdsUnique(store, id, status);
    WithoutKeepsIdsUnique(store, id);
  }

  lemma AppendKeepsIdsUnique(store: seq<Doc>, d: Doc)
    requires UniqueIds(store) && !HasId(store, d.id)
    ensures UniqueIds(store + [d])
  {
    var c := store + [d];
    forall i, j | 0 <= i < j < |c| ensures c[i].id != c[j].id {
      if j == |store| {
        assert c[i] == store[i] && store[i] in store;
      } else {
        assert c[i] == store[i] && c[j] == store[j];
      }
    }
  }

  lemma SetStatusKeepsIdsUnique(store: seq<Doc>, id: string, status: JsValue)
    requires UniqueIds(store)
    ensures UniqueIds(UpdateStatus(store, id, status).1)
  {
    if ModerationStatus(status).Some? {
      var r := SetStatus(store, id, ModerationStatus(status).value);
      forall i, j | 0 <= i < j < |r| ensures r[i].id != r[j].id {
        assert r[i].id == store[i].id && r[j].id == store[j].id;
      }
    }
  }

  lemma {:induction false} WithoutKeepsIdsUnique(store: seq<Doc>, id: string)
    requires UniqueIds(store)
    ensures UniqueIds(Without(store, id))
  {
    if store != [] {
      var tail := store[1..];
      assert UniqueIds(tail) by {
        forall i, j | 0 <= i < j < |tail| ensures tail[i].id != tail[j].id {
          assert tail[i] == store[i + 1] && tail[j] == store[j + 1];
        }
      }
      WithoutKeepsIdsUnique(tail, id);
      var rest := Without(tail, id);
      if store[0].id == id {
        assert Without(store, id) == rest;
      } else {
        assert Without(store, id) == [store[0]] + rest;
        forall k | 0 <= k < |rest| ensures rest[k].id != store[0].id {
          assert rest[k] in tail;
        }
        ConsKeepsIdsUnique(store[0], rest);
      }
    }
  }

  lemma ConsKeepsIdsUnique(d: Doc, rest: seq<Doc>)
    requires UniqueIds(rest) && forall k :: 0 <= k < |rest| ==> rest[k].id != d.id
    ensures UniqueIds([d] + rest)
  {
    var r := [d] + rest;
    forall i, j | 0 <= i < j < |r| ensures r[i].id != r[j].id {
      assert r[j] == rest[j - 1];
      if i > 0 { assert r[i] == rest[i - 1]; }
    }
  }

  /** A new comment is pending, so the default query does not show it on any page; once it
      is approved it is among the matches of that query, with its content unchanged. */
  lemma ModerationLifecycle(store: seq<Doc>, productId: string, body: CommentBody, newId: string, q: ListQuery)
    requires Accepted(body) && !HasId(store, newId)
    requires q.status == None
    ensures var created := Create(store, productId, body, newId, false).1;
            var c := NewComment(productId, body);
            && (forall d :: d in FindByProductId(created, productId, q).1 ==> d.comment.status != Pending)
            && Doc(newId, c.(status := Approved)) in Matching(UpdateStatus(created, newId, Str("approved")).1, productId, "approved")
  {
    var created := Create(store, productId, body, newId, false).1;
    if Options(productId, q).skip >= 0 {
      ListedComments(created, productId, q);
    }
    ApproveNew(store, Doc(newId, NewComment(productId, body)));
  }

  /** Approving the last document created puts the approved copy in the collection. */
  lemma ApproveNew(store: seq<Doc>, d: Doc)
    ensures var approved := UpdateStatus(store + [d], d.id, Str("approved")).1;
            Doc(d.id, d.comment.(status := Approved)) in approved
  {
    var created := store + [d];
    assert created[|store|] == d;
    assert HasId(created, d.id) by { assert created[|store|] in created; }
    var approved := SetStatus(created, d.id, Approved);
    assert approved[|store|] == Doc(d.id, d.comment.(status := Approved));
    assert approved[|store|] in approved;
  }

  /** Approving twice leaves the collection as approving once. */
  lemma UpdateStatusIdempotent(store: seq<Doc>, id: string, status: JsValue)
    ensures var once := UpdateStatus(store, id, status);
            UpdateStatus(once.1, id, status) == once
  {
    var once := UpdateStatus(store, id, status);
    if ModerationStatus(status).Some? && HasId(store, id) {
      var st := ModerationStatus(status).value;
      var d :| d in store && d.id == id;
      var k :| 0 <= k < |store| && store[k] == d;
      assert once.1[k].id == id;
      assert HasId(once.1, id) by { assert once.1[k] in once.1; }
      SetStatusSettles(store, id, st);
    }
  }

  lemma SetStatusSettles(store: seq<Doc>, id: string, st: Status)
    ensures SetStatus(SetStatus(store, id, st), id, st) == SetStatus(store, id, st)
  {
    var once := SetStatus(store, id, st);
    var twice := SetStatus(once, id, st);
    assert forall i :: 0 <= i < |once| ==> twice[i] == once[i];
  }

  /** Deleting a comment right after creating it restores the collection. */
  lemma CreateThenRemove(store: seq<Doc>, productId: string, body: CommentBody, newId: string)
    requires Accepted(body) && !HasId(store, newId)
    ensures var created := Create(store, productId, body, newId, false).1;
            Remove(created, newId) == (Reply(200, "Comment deleted successfully"), store)
  {
    var created := Create(store, productId, body, newId, false).1;
    assert created[|store|] in created;
    WithoutAppended(store, Doc(newId, NewComment(productId, body)));
  }

  lemma {:induction false} WithoutAppended(store: seq<Doc>, d: Doc)
    requires !HasId(store, d.id)
    ensures Without(store + [d], d.id) == store
  {
    if store == [] {
      assert [d][1..] == [];
    } else {
      assert (store + [d])[1..] == store[1..] + [d];
      assert store[0] in store;
      assert !HasId(store[1..], d.id) by {
        forall e | e in store[1..] ensures e.id != d.id { assert e in store; }
      }
      WithoutAppended(store[1..], d);
    }
  }
}
