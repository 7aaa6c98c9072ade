/** The admin listing of advertisements (src/apps/controllers/web/banner.js): the image
    path normaliser, the banner/slider switch, and the merged listing that puts banners and
    sliders on one sorted, paged list. */
module Banner {
  import opened Js
  import opened UploadPaths
  import Pagination

  const PLACEHOLDER: string := "/static/admin/img/placeholder.png"
  const PUBLIC_UPLOAD_PREFIX: string := "/public/upload/"
  const DEFAULT_SUBFOLDER: string := "banners"
  const DEFAULT_LIMIT: int := 10

  /** The rewriting `normalizeAdImage` applies to the trimmed text. */
  function RewriteAdPath(v: string, subfolder: string): (r: string)
    ensures StartsWith(r, UPLOAD_PREFIX)
    ensures StartsWith(v, UPLOAD_PREFIX) ==> r == v
  {
    UnderPrefix(subfolder, v);
    UnderPrefix(subfolder, StripLeadingSlashes(v));
    if StartsWith(v, UPLOAD_PREFIX) then v
    else if StartsWith(v, PUBLIC_UPLOAD_PREFIX) then PublicTail(v); v[7..]
    else if '/' !in v then UPLOAD_PREFIX + subfolder + "/" + v
    else UPLOAD_PREFIX + subfolder + "/" + StripLeadingSlashes(v)
  }

  /** Dropping "/public" from a public upload path leaves an upload path. */
  lemma PublicTail(v: string)
    requires StartsWith(v, PUBLIC_UPLOAD_PREFIX)
    ensures |v| >= 7 && StartsWith(v[7..], UPLOAD_PREFIX)
  {
    assert v[7..][..8] == v[7..15] == PUBLIC_UPLOAD_PREFIX[7..];
  }

  /** `normalizeAdImage(value, subfolder)` */
  function NormalizeAdImage(value: JsValue, subfolder: string): (r: string)
    ensures !(value.Str? && value.s != []) ==> r == PLACEHOLDER
  {
    if !(value.Str? && value.s != []) then PLACEHOLDER
    else RewriteAdPath(Trim(value.s), subfolder)
  }

  /** Every result other than the placeholder is an upload path, and it has no white space
      at either end. */
  lemma AdImageShape(value: JsValue, subfolder: string)
    ensures var r := NormalizeAdImage(value, subfolder);
            r == PLACEHOLDER || (StartsWith(r, UPLOAD_PREFIX) && Trimmed(r))
  {
    if value.Str? && value.s != [] {
      TrimIsTrimmed(value.s);
      RewriteShape(Trim(value.s), subfolder);
    }
  }

  /** Rewriting a trimmed text gives a trimmed upload path. */
  lemma RewriteShape(v: string, subfolder: string)
    requires Trimmed(v)
    ensures StartsWith(RewriteAdPath(v, subfolder), UPLOAD_PREFIX) && Trimmed(RewriteAdPath(v, subfolder))
  {
    if StartsWith(v, UPLOAD_PREFIX) {
    } else if StartsWith(v, PUBLIC_UPLOAD_PREFIX) {
      PublicToUpload(v);
    } else if '/' !in v {
      UnderSubfolder(subfolder, v);
    } else {
      var w := StripLeadingSlashes(v);
      assert w == [] || w[|w| - 1] == v[|v| - 1];
      UnderSubfolder(subfolder, w);
    }
  }

  /** Dropping `/public` from a trimmed `/public/upload/...` path leaves a trimmed upload path. */
  lemma PublicToUpload(v: string)
    requires StartsWith(v, PUBLIC_UPLOAD_PREFIX) && Trimmed(v)
    ensures StartsWith(v[7..], UPLOAD_PREFIX) && Trimmed(v[7..])
  {
    assert v[..15] == PUBLIC_UPLOAD_PREFIX;
    assert v[7..][..8] == v[7..15] == UPLOAD_PREFIX;
    assert v[7..][0] == '/';
  }

  /** An upload path without surrounding white space normalises to itself. */
  lemma UploadPathFixed(r: string, subfolder: string)
    requires StartsWith(r, UPLOAD_PREFIX) && Trimmed(r)
    ensures NormalizeAdImage(Str(r), subfolder) == r
  {
    TrimOfTrimmed(r);
    NormalizeUntrimmed(r, subfolder);
  }

  lemma NormalizeUntrimmed(r: string, subfolder: string)
    requires Trim(r) == r && StartsWith(r, UPLOAD_PREFIX)
    ensures NormalizeAdImage(Str(r), subfolder) == r
  {
    RewriteKeepsUpload(r, subfolder);
    NormalizeIsRewrite(r, subfolder);
  }

  lemma RewriteKeepsUpload(r: string, subfolder: string)
    requires StartsWith(r, UPLOAD_PREFIX)
    ensures r != [] && RewriteAdPath(r, subfolder) == r
  {
  }

  lemma NormalizeIsRewrite(r: string, subfolder: string)
    requires Trim(r) == r && r != []
    ensures NormalizeAdImage(Str(r), subfolder) == RewriteAdPath(r, subfolder)
  {
  }

  /** Normalising twice is normalising once for every result but the placeholder. */
  lemma AdImageFixedPoint(value: JsValue, subfolder: string)
    ensures var r := NormalizeAdImage(value, subfolder);
            r != PLACEHOLDER ==> NormalizeAdImage(Str(r), subfolder) == r
  {
    var r := NormalizeAdImage(value, subfolder);
    AdImageShape(value, subfolder);
    if r != PLACEHOLDER {
      UploadPathFixed(r, subfolder);
    }
  }

  /** The placeholder is not a fixed point: fed back in, it becomes a path in the subfolder. */
  lemma PlaceholderNotFixed(subfolder: string)
    ensures NormalizeAdImage(Str(PLACEHOLDER), subfolder) == UPLOAD_PREFIX + subfolder + "/" + PLACEHOLDER[1..]
  {
    PlaceholderTrimmed();
    NormalizeIsRewrite(PLACEHOLDER, subfolder);
    RewritePlaceholder(subfolder);
  }

  lemma PlaceholderTrimmed()
    ensures Trim(PLACEHOLDER) == PLACEHOLDER
  {
    assert PLACEHOLDER[0] == '/' && PLACEHOLDER[|PLACEHOLDER| - 1] == 'g';
    TrimOfTrimmed(PLACEHOLDER);
  }

  lemma RewritePlaceholder(subfolder: string)
    ensures RewriteAdPath(PLACEHOLDER, subfolder) == UPLOAD_PREFIX + subfolder + "/" + PLACEHOLDER[1..]
  {
    assert PLACEHOLDER[1] == 's' && PLACEHOLDER[0] == '/';
    DiffersAt(PLACEHOLDER, UPLOAD_PREFIX, 1);
    DiffersAt(PLACEHOLDER, PUBLIC_UPLOAD_PREFIX, 1);
    assert StripLeadingSlashes(PLACEHOLDER[1..]) == PLACEHOLDER[1..];
  }

  /** `detectAdType(req)`: from the request path, then the `type` query parameter. */
  function DetectAdType(path: string, queryType: JsValue): (r: string)
    ensures r == "slider" <==> Includes(path, "/sliders") || queryType == Str("slider")
    ensures r == "slider" || r == "banner"
  {
    if Includes(path, "/sliders") then "slider"
    else if queryType == Str("slider") then "slider"
    else "banner"
  }

  /** Every path under `/admin/sliders` is a slider page, whatever the query says. */
  lemma SliderPathsDetected(rest: string, queryType: JsValue)
    ensures DetectAdType("/admin/sliders" + rest, queryType) == "slider"
  {
    var path := "/admin/sliders" + rest;
    assert path[6..6 + |"/sliders"|] == "/sliders";
    assert OccursAt(path, "/sliders", 6);
    IncludesIffOccurs(path, "/sliders");
  }

  /** The pages this controller is mounted on all sit under `/admin/banners`, and an id
      segment holds no `/sliders`: there the type comes from the query alone. */
  lemma BannerPathsTypedByQuery(rest: string, queryType: JsValue)
    requires !Includes(rest, "/sliders")
    ensures DetectAdType("/admin/banners" + rest, queryType)
            == (if queryType == Str("slider") then "slider" else "banner")
  {
    var a := "/admin/banners";
    forall k | 0 <= k < |a|
      ensures !StartsWith((a + rest)[k..], "/sliders")
    {
      var t := (a + rest)[k..];
      if k == 0 {
        DiffersAt(t, "/sliders", 1);
      } else if k == 6 {
        DiffersAt(t, "/sliders", 1);
      } else {
        assert t[0] == a[k] != '/';
        DiffersAt(t, "/sliders", 0);
      }
    }
    NotIncludedAcross(a, rest, "/sliders");
  }

  /** An advertisement as the ad API lists it, with the type tag the listing adds.
      `updatedAt` is in milliseconds. */
  datatype Ad = Ad(id: string, kind: string, url: Option<string>, image: JsValue,
                   position: int, updatedAt: int, publish: Option<bool>)

  /** The listing comparator: position ascending, then most recently updated first. */
  predicate Before(a: Ad, b: Ad) {
    a.position < b.position || (a.position == b.position && a.updatedAt > b.updatedAt)
  }

  /** The sort key; the comparator answers 0 exactly on equal keys. */
  function KeyOf(a: Ad): (int, int) {
    (a.position, a.updatedAt)
  }

  predicate SortedAds(s: seq<Ad>) {
    forall i, j :: 0 <= i < j < |s| ==> !Before(s[j], s[i])
  }

  /** The ads of one key, in sequence order. */
  function WithKey(s: seq<Ad>, k: (int, int)): (r: seq<Ad>)
    ensures |r| <= |s|
  {
    if s == [] then [] else (if KeyOf(s[0]) == k then [s[0]] else []) + WithKey(s[1..], k)
  }

  lemma {:induction false} WithKeyAppend(a: seq<Ad>, b: seq<Ad>, k: (int, int))
    ensures WithKey(a + b, k) == WithKey(a, k) + WithKey(b, k)
  {
    if a == [] {
      assert a + b == b;
    } else {
      assert (a + b)[1..] == a[1..] + b;
      WithKeyAppend(a[1..], b, k);
    }
  }

  /** Insert `x` after every element that does not come strictly after it. */
  function Insert(x: Ad, s: seq<Ad>): (r: seq<Ad>)
    ensures |r| == |s| + 1
    ensures multiset(r) == multiset(s) + multiset{x}
  {
    if s == [] then [x]
    else if Before(x, s[0]) then [x] + s
    else
      assert s == [s[0]] + s[1..];
      [s[0]] + Insert(x, s[1..])
  }

  lemma {:induction false} InsertMembers(x: Ad, s: seq<Ad>)
    ensures forall y :: y in Insert(x, s) ==> y == x || y in s
  {
    forall y | y in Insert(x, s) ensures y == x || y in s {
      assert y in multiset(Insert(x, s));
    }
  }

  lemma {:induction false} InsertSorted(x: Ad, s: seq<Ad>)
    requires SortedAds(s)
    ensures SortedAds(Insert(x, s))
  {
    if s != [] && !Before(x, s[0]) {
      assert SortedAds(s[1..]);
      InsertSorted(x, s[1..]);
      InsertMembers(x, s[1..]);
      var t := Insert(x, s[1..]);
      var r := Insert(x, s);
      assert r == [s[0]] + t;
      forall i, j | 0 <= i < j < |r| ensures !Before(r[j], r[i]) {
        if i > 0 {
          assert r[i] == t[i - 1] && r[j] == t[j - 1];
        } else {
          assert r[j] == t[j - 1] && t[j - 1] in t;
        }
      }
    }
  }

  lemma {:induction false} InsertWithKey(x: Ad, s: seq<Ad>, k: (int, int))
    requires SortedAds(s)
    ensures WithKey(Insert(x, s), k) == WithKey(s, k) + WithKey([x], k)
  {
    if s == [] {
      assert Insert(x, s) == [x];
    } else if Before(x, s[0]) {
      InsertFront(x, s, k);
    } else {
      assert SortedAds(s[1..]);
      InsertWithKey(x, s[1..], k);
      InsertBehind(x, s, k);
    }
  }

  lemma InsertBehind(x: Ad, s: seq<Ad>, k: (int, int))
    requires s != [] && !Before(x, s[0])
    requires WithKey(Insert(x, s[1..]), k) == WithKey(s[1..], k) + WithKey([x], k)
    ensures WithKey(Insert(x, s), k) == WithKey(s, k) + WithKey([x], k)
  {
    InsertUnfold(x, s);
    PrependKey(s[0], Insert(x, s[1..]), s[1..], WithKey([x], k), k);
    assert [s[0]] + s[1..] == s;
  }

  lemma InsertUnfold(x: Ad, s: seq<Ad>)
    requires s != [] && !Before(x, s[0])
    ensures Insert(x, s) == [s[0]] + Insert(x, s[1..])
  {
  }

  lemma PrependKey(a: Ad, t: seq<Ad>, rest: seq<Ad>, tail: seq<Ad>, k: (int, int))
    requires WithKey(t, k) == WithKey(rest, k) + tail
    ensures WithKey([a] + t, k) == WithKey([a] + rest, k) + tail
  {
    WithKeyAppend([a], t, k);
    WithKeyAppend([a], rest, k);
  }

  lemma InsertFront(x: Ad, s: seq<Ad>, k: (int, int))
    requires SortedAds(s) && s != [] && Before(x, s[0])
    ensures WithKey(Insert(x, s), k) == WithKey(s, k) + WithKey([x], k)
  {
    assert Insert(x, s) == [x] + s;
    WithKeyAppend([x], s, k);
    if KeyOf(x) == k {
      NoneWithKey(s, k);
    }
  }

  /** In a sorted list whose first element comes strictly after `x`'s key, no element has that key. */
  lemma {:induction false} NoneWithKey(s: seq<Ad>, k: (int, int))
    requires SortedAds(s) && s != []
    requires forall a: Ad :: KeyOf(a) == k ==> Before(a, s[0])
    ensures WithKey(s, k) == []
  {
    if |s| > 1 {
      assert SortedAds(s[1..]);
      assert !Before(s[1], s[0]);
      NoneWithKey(s[1..], k);
    }
  }

  /** `Array.prototype.sort` with the listing comparator; the sort is stable. */
  function SortAds(s: seq<Ad>): (r: seq<Ad>)
    ensures |r| == |s| && multiset(r) == multiset(s)
  {
    if s == [] then [] else
      assert s == s[..|s| - 1] + [s[|s| - 1]];
      Insert(s[|s| - 1], SortAds(s[..|s| - 1]))
  }

  /** The sort orders by the comparator and keeps ads of equal key in their input order:
      for every key, the ads with it appear in the output exactly as in the input. */
  lemma {:induction false} SortAdsStable(s: seq<Ad>)
    ensures SortedAds(SortAds(s))
    ensures forall k :: WithKey(SortAds(s), k) == WithKey(s, k)
  {
    if s != [] {
      var init := s[..|s| - 1];
      var x := s[|s| - 1];
      SortAdsStable(init);
      assert s == init + [x];
      SortStep(init, x);
    }
  }

  lemma SortAdsSnoc(init: seq<Ad>, x: Ad)
    ensures SortAds(init + [x]) == Insert(x, SortAds(init))
  {
    var s := init + [x];
    assert s[..|s| - 1] == init;
  }

  /** Inserting the next input ad keeps the sorted prefix sorted and stable. */
  lemma SortStep(init: seq<Ad>, x: Ad)
    requires SortedAds(SortAds(init))
    requires forall k :: WithKey(SortAds(init), k) == WithKey(init, k)
    ensures SortedAds(SortAds(init + [x]))
    ensures forall k :: WithKey(SortAds(init + [x]), k) == WithKey(init + [x], k)
  {
    SortAdsSnoc(init, x);
    InsertSorted(x, SortAds(init));
    forall k ensures WithKey(SortAds(init + [x]), k) == WithKey(init + [x], k) {
      InsertWithKey(x, SortAds(init), k);
      WithKeyAppend(init, [x], k);
    }
  }

  /** A fetched ad tagged with its type (`{ ...ad, type }`). */
  function Tag(ads: seq<Ad>, kind: string): (r: seq<Ad>)
    ensures |r| == |ads|
    ensures forall i :: 0 <= i < |r| ==> r[i] == ads[i].(kind := kind)
  {
    if ads == [] then [] else [ads[0].(kind := kind)] + Tag(ads[1..], kind)
  }

  /** Banners then sliders, each tagged with its type, in listing order. */
  function Merged(banners: seq<Ad>, sliders: seq<Ad>): (all: seq<Ad>)
    ensures |all| == |banners| + |sliders|
  {
    SortAds(Tag(banners, "banner") + Tag(sliders, "slider"))
  }

  /** The merged list holds exactly the tagged banners and sliders, sorted by the
      comparator, with ads of equal key in input order (banners before sliders). */
  lemma MergedOrder(banners: seq<Ad>, sliders: seq<Ad>)
    ensures var all := Merged(banners, sliders);
            && multiset(all) == multiset(Tag(banners, "banner")) + multiset(Tag(sliders, "slider"))
            && SortedAds(all)
            && forall k :: WithKey(all, k) == WithKey(Tag(banners, "banner"), k) + WithKey(Tag(sliders, "slider"), k)
  {
    var tagged := Tag(banners, "banner") + Tag(sliders, "slider");
    SortAdsStable(tagged);
    forall k ensures WithKey(tagged, k) == WithKey(Tag(banners, "banner"), k) + WithKey(Tag(sliders, "slider"), k) {
      WithKeyAppend(Tag(banners, "banner"), Tag(sliders, "slider"), k);
    }
  }

  /** What the merged listing renders: the page's ads and the page numbers. */
  datatype Listing = Listing(ads: seq<Ad>, total: nat, totalPages: int, page: int, prev: int, next: int)

  /** Page `page` of `all` at `limit` entries a page: the entries from position
      `(page-1)*limit`, the page count `Math.ceil(total / limit) || 1`, and the neighbouring
      page numbers, kept within `1..totalPages`. */
  function PageOf(all: seq<Ad>, page: int, limit: int): (l: Listing)
    requires limit != 0
    ensures l.total == |all| && l.page == page && l.totalPages != 0
    ensures l.prev == (if page > 1 then page - 1 else 1)
    ensures l.next == (if page < l.totalPages then page + 1 else l.totalPages)
  {
    var pages := CeilDiv(|all|, limit);
    var totalPages := if pages == 0 then 1 else pages;
    var start := (page - 1) * limit;
    Listing(Slice(all, start, start + limit), |all|, totalPages, page,
            if page > 1 then page - 1 else 1, if page < totalPages then page + 1 else totalPages)
  }

  /** The merged listing of `index` with `type` empty or `all`. `fetched` is both API
      responses, or `None` when either request failed. */
  function MergedListing(fetched: Option<(seq<Ad>, seq<Ad>)>, pageParam: Option<string>, limitParam: Option<string>): (l: Listing)
    ensures fetched.None? ==> l.ads == [] && l.total == 0 && l.totalPages == 1
    ensures fetched.Some? ==> l == PageOf(Merged(fetched.value.0, fetched.value.1), NumberOr(pageParam, 1), NumberOr(limitParam, DEFAULT_LIMIT))
    ensures l.totalPages != 0 && l.page == NumberOr(pageParam, 1)
    ensures l.prev == (if l.page > 1 then l.page - 1 else 1)
    ensures l.next == (if l.page < l.totalPages then l.page + 1 else l.totalPages)
  {
    var page := NumberOr(pageParam, 1);
    var limit := NumberOr(limitParam, DEFAULT_LIMIT);
    match fetched
    case None => Listing([], 0, 1, page, if page > 1 then page - 1 else 1, if page < 1 then page + 1 else 1)
    case Some(pair) => PageOf(Merged(pair.0, pair.1), page, limit)
  }

  /** Paging any list: the page count is the number of `limit`-sized pages the list fills,
      and at least one. */
  lemma PageBounds(all: seq<Ad>, page: int, limit: int, l: Listing)
    requires limit > 0 && l == PageOf(all, page, limit)
    ensures l.totalPages >= 1
    ensures l.total == 0 ==> l.totalPages == 1
    ensures l.total > 0 ==> (l.totalPages - 1) * limit < l.total <= l.totalPages * limit
  {
    PagesFit(l.total, limit, l.totalPages);
  }

  /** An in-range page starting at `start = (page-1)*limit` is the slice
      `[start, min(start+limit, total))` of the list. */
  lemma PageSlice(all: seq<Ad>, page: int, limit: int, start: int, l: Listing)
    requires limit > 0 && l == PageOf(all, page, limit) && 1 <= page <= l.totalPages
    requires start == (page - 1) * limit
    ensures 0 <= start <= l.total
    ensures l.ads == all[start..Pagination.Min(start + limit, l.total)]
  {
    PageStart(l.total, limit, page, l.totalPages);
    SlicePage(all, start, limit);
  }

  lemma SlicePage(all: seq<Ad>, start: int, limit: int)
    requires limit > 0 && 0 <= start <= |all|
    ensures Slice(all, start, start + limit) == all[start..Pagination.Min(start + limit, |all|)]
  {
  }

  /** `Math.ceil(total / limit) || 1` for a positive limit. */
  lemma PageCount(total: nat, limit: int)
    requires limit > 0
    ensures var pages := CeilDiv(total, limit);
            && (total == 0 ==> pages == 0)
            && (total > 0 ==> pages >= 1 && (pages - 1) * limit < total <= pages * limit)
  {
    var pages := CeilDiv(total, limit);
    if total > 0 && pages < 1 {
      Pagination.MulMono(pages, 0, limit);
    }
    if total == 0 && pages != 0 {
      if pages > 0 { Pagination.MulMono(1, pages, limit); }
      else { Pagination.MulMono(pages, -1, limit); Pagination.MulMono(pages - 1, -1, limit); }
    }
  }

  /** The page count of the listing, `Math.ceil(total / limit) || 1`, bounds the list. */
  lemma PagesFit(total: nat, limit: int, totalPages: int)
    requires limit > 0
    requires totalPages == (if CeilDiv(total, limit) == 0 then 1 else CeilDiv(total, limit))
    ensures totalPages >= 1
    ensures total == 0 ==> totalPages == 1
    ensures total > 0 ==> (totalPages - 1) * limit < total <= totalPages * limit
  {
    PageCount(total, limit);
  }

  /** An in-range page starts inside the list. */
  lemma PageStart(total: nat, limit: int, page: int, totalPages: int)
    requires limit > 0 && 1 <= page <= totalPages
    requires totalPages == (if CeilDiv(total, limit) == 0 then 1 else CeilDiv(total, limit))
    ensures 0 <= (page - 1) * limit <= total
  {
    PagesFit(total, limit, totalPages);
    Pagination.MulMono(0, page - 1, limit);
    if total > 0 {
      Pagination.MulMono(page - 1, totalPages - 1, limit);
    }
  }

  /** The fields `index` adds for display: the link (or `#`), the normalised image in the
      folder of the ad's type, position, and publish flag (false when absent). */
  datatype AdView = AdView(ad: Ad, link: string, image: string, position: int, publish: bool)

  function Display(a: Ad): (v: AdView)
    ensures v.link != [] && (Present(a.url) ==> v.link == a.url.value)
    ensures !Present(a.url) ==> v.link == "#"
    ensures v.image == NormalizeAdImage(a.image, if a.kind == "slider" then "sliders" else "banners")
    ensures v.image == PLACEHOLDER || StartsWith(v.image, UPLOAD_PREFIX)
    ensures v.publish <==> a.publish == Some(true)
    ensures v.ad == a && v.position == a.position
  {
    AdImageShape(a.image, if a.kind == "slider" then "sliders" else "banners");
    AdView(a, if Present(a.url) then a.url.value else "#",
           NormalizeAdImage(a.image, if a.kind == "slider" then "sliders" else "banners"),
           a.position, a.publish == Some(true))
  }
}
