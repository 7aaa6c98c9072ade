/** Paging arithmetic: the compact page list the admin views render
    (src/libs/view.pagination.js) and the page metadata of src/libs/paginate.js. */
module Pagination {
  import opened Js

  /** One entry of the rendered list: a page number or the `'...'` placeholder. */
  datatype PageItem = PageNum(n: int) | Ellipsis

  /** `Number(v) || 1` */
  function PageOrFirst(v: JsValue): (r: int)
    ensures r != 0
  {
    var n := match v
      case Num(k) => Some(k)
      case Str(s) => ToNumber(s)
      case Bool(b) => Some(if b then 1 else 0)
      case Null => Some(0)
      case Undefined => None;
    if n.Some? && n.value != 0 then n.value else 1
  }

  function Clamp(n: int, lo: int, hi: int): (r: int)
    requires lo <= hi
    ensures lo <= r <= hi
    ensures lo <= n <= hi ==> r == n
  {
    if n < lo then lo else if n > hi then hi else n
  }

  function Max(a: int, b: int): int { if a >= b then a else b }
  function Min(a: int, b: int): int { if a <= b then a else b }

  /** The pages `lo, lo+1, ..., hi` (empty when `hi < lo`). */
  function Pages(lo: int, hi: int): (r: seq<PageItem>)
    ensures |r| == if hi < lo then 0 else hi - lo + 1
    ensures forall i :: 0 <= i < |r| ==> r[i] == PageNum(lo + i)
  {
    if hi < lo then [] else seq(hi - lo + 1, i => PageNum(lo + i))
  }

  /** The page the list is centred on once there are more than seven pages. */
  function CurrentPage(totalPages: int, currentPage: JsValue): (cur: int)
    requires totalPages >= 1
    ensures 1 <= cur <= totalPages
  {
    Clamp(PageOrFirst(currentPage), 1, totalPages)
  }

  /** The list for more than seven pages, around page `cur`. */
  function Window(totalPages: int, cur: int): (r: seq<PageItem>)
    requires totalPages > 7 && 1 <= cur <= totalPages
    ensures 4 <= |r| <= 7 && r[0] == PageNum(1) && r[|r| - 1] == PageNum(totalPages)
  {
    var midStart := Max(2, cur - 1);
    var midEnd := Min(totalPages - 1, cur + 1);
    [PageNum(1)]
    + (if midStart > 2 then [Ellipsis] else [])
    + Pages(midStart, midEnd)
    + (if midEnd < totalPages - 1 then [Ellipsis] else [])
    + [PageNum(totalPages)]
  }

  /** `buildCompactPagination(totalPages, currentPage)` */
  function CompactPagination(totalPages: int, currentPage: JsValue): (r: seq<PageItem>)
    ensures r == [] <==> totalPages < 1
    ensures 1 <= totalPages <= 7 ==> r == Pages(1, totalPages)
    ensures totalPages > 7 ==> 4 <= |r| <= 7 && r[0] == PageNum(1) && r[|r| - 1] == PageNum(totalPages)
  {
    if totalPages < 1 then []
    else if totalPages <= 7 then Pages(1, totalPages)
    else Window(totalPages, CurrentPage(totalPages, currentPage))
  }

  /** The pages a list must show: all of them up to seven pages, otherwise the first, the
      last and the current page with its two neighbours. */
  predicate Shown(totalPages: int, cur: int, n: int) {
    1 <= n <= totalPages && (totalPages <= 7 || n == 1 || n == totalPages || cur - 1 <= n <= cur + 1)
  }

  /** Numbers rise left to right; neighbouring numbers are consecutive pages, and a
      placeholder stands exactly where pages are skipped. */
  predicate Compact(r: seq<PageItem>) {
    && (forall i, j :: 0 <= i < j < |r| && r[i].PageNum? && r[j].PageNum? ==> r[i].n < r[j].n)
    && (forall i :: 0 <= i < |r| - 1 && r[i].PageNum? && r[i + 1].PageNum? ==> r[i + 1].n == r[i].n + 1)
    && (forall i :: 0 <= i < |r| && r[i].Ellipsis? ==>
          0 < i < |r| - 1 && r[i - 1].PageNum? && r[i + 1].PageNum? && r[i + 1].n >= r[i - 1].n + 2)
  }

  /** Position by position: 1, an optional placeholder, the run around `cur`, an optional
      placeholder, the last page. */
  lemma WindowShape(totalPages: int, cur: int)
    requires totalPages > 7 && 1 <= cur <= totalPages
    ensures var r := Window(totalPages, cur);
            var midStart := Max(2, cur - 1);
            var midEnd := Min(totalPages - 1, cur + 1);
            var m := if midStart > 2 then 2 else 1;
            var e := m + midEnd - midStart + 1;
            && |r| == e + (if midEnd < totalPages - 1 then 1 else 0) + 1
            && (forall i :: 0 <= i < |r| ==>
                  r[i] == (if i == 0 then PageNum(1)
                           else if i == |r| - 1 then PageNum(totalPages)
                           else if m <= i < e then PageNum(midStart + i - m)
                           else Ellipsis))
  {
    var midStart := Max(2, cur - 1);
    var midEnd := Min(totalPages - 1, cur + 1);
    var left: seq<PageItem> := if midStart > 2 then [Ellipsis] else [];
    var mid := Pages(midStart, midEnd);
    var right: seq<PageItem> := if midEnd < totalPages - 1 then [Ellipsis] else [];
    var r := Window(totalPages, cur);
    assert r == [PageNum(1)] + left + mid + right + [PageNum(totalPages)];
  }

  lemma WindowCompact(totalPages: int, cur: int)
    requires totalPages > 7 && 1 <= cur <= totalPages
    ensures Compact(Window(totalPages, cur))
  {
    WindowShape(totalPages, cur);
  }

  lemma WindowShows(totalPages: int, cur: int)
    requires totalPages > 7 && 1 <= cur <= totalPages
    ensures forall n :: PageNum(n) in Window(totalPages, cur) <==> Shown(totalPages, cur, n)
  {
    WindowShape(totalPages, cur);
    var r := Window(totalPages, cur);
    var midStart := Max(2, cur - 1);
    var m := if midStart > 2 then 2 else 1;
    forall n ensures PageNum(n) in r <==> Shown(totalPages, cur, n) {
      if Shown(totalPages, cur, n) {
        if n == 1 { assert r[0] == PageNum(n); }
        else if n == totalPages { assert r[|r| - 1] == PageNum(n); }
        else { assert r[m + n - midStart] == PageNum(n); }
      }
    }
  }

  /** The list is the shown pages in order, with a placeholder at each gap; so the current
      page always appears, and two placeholders are never adjacent. */
  lemma CompactPaginationShows(totalPages: int, currentPage: JsValue)
    requires totalPages >= 1
    ensures var r := CompactPagination(totalPages, currentPage);
            var cur := CurrentPage(totalPages, currentPage);
            && Compact(r)
            && (forall n :: PageNum(n) in r <==> Shown(totalPages, cur, n))
            && PageNum(cur) in r
  {
    var r := CompactPagination(totalPages, currentPage);
    var cur := CurrentPage(totalPages, currentPage);
    if totalPages <= 7 {
      AllPagesShown(totalPages, cur);
    } else {
      WindowCompact(totalPages, cur);
      WindowShows(totalPages, cur);
    }
    assert Shown(totalPages, cur, cur);
  }

  /** Up to seven pages, the list is every page in order. */
  lemma AllPagesShown(totalPages: int, cur: int)
    requires 1 <= totalPages <= 7
    ensures Compact(Pages(1, totalPages))
    ensures forall n :: PageNum(n) in Pages(1, totalPages) <==> Shown(totalPages, cur, n)
  {
    var r := Pages(1, totalPages);
    forall n ensures PageNum(n) in r <==> Shown(totalPages, cur, n) {
      if Shown(totalPages, cur, n) { assert r[n - 1] == PageNum(n); }
    }
  }

  /** A placeholder follows page 1 exactly when the current page is past 3, and precedes
      the last page exactly when the current page is more than two before it. */
  lemma PlaceholderPlacement(totalPages: int, currentPage: JsValue)
    requires totalPages > 7
    ensures var r := CompactPagination(totalPages, currentPage);
            var cur := CurrentPage(totalPages, currentPage);
            && (r[1] == Ellipsis <==> cur > 3)
            && (r[|r| - 2] == Ellipsis <==> cur < totalPages - 2)
  {
  }

  /** The metadata `paginate(page, limit, query, model)` returns, for `count` matching documents. */
  datatype PageMeta = PageMeta(page: int, limit: int, total: int, next: int, prev: int, hasNext: bool, hasPrev: bool)

  /** `page * limit - limit`, the skip the list handlers compute, is `(page - 1) * limit`. */
  lemma SkipArithmetic(page: int, limit: int)
    ensures page * limit - limit == (page - 1) * limit
  {
  }

  /** `x`, but no more than `n`. */
  function Cap(x: int, n: nat): (r: nat)
    requires x >= 0
    ensures r <= n && r <= x && (r == x || r == n)
  {
    if x <= n then x else n
  }

  /** Page `k` of `all`, `limit` entries to a page: what `.skip((k - 1) * limit).limit(limit)`
      returns, cut short at the end of the list. */
  function PageOf<T>(all: seq<T>, k: nat, limit: nat): (r: seq<T>)
    requires k >= 1
    ensures |r| <= limit
  {
    PageEnds(k, limit);
    all[Cap((k - 1) * limit, |all|)..Cap(k * limit, |all|)]
  }

  lemma PageEnds(k: nat, limit: nat)
    requires k >= 1
    ensures (k - 1) * limit >= 0 && k * limit == (k - 1) * limit + limit
  {
  }

  /** The entries of pages `1 .. page - 1`, in order. */
  function EarlierPages<T>(all: seq<T>, page: nat, limit: nat): seq<T>
    decreases page
  {
    if page <= 1 then [] else EarlierPages(all, page - 1, limit) + PageOf(all, page - 1, limit)
  }

  /** For a positive page and limit, the skip `page * limit - limit` passes over exactly the
      entries of the earlier pages: they are the first `skip` entries of the list, or all of
      it when it is shorter. */
  lemma {:induction false} SkipIsPreviousPages<T>(all: seq<T>, page: nat, limit: nat)
    requires page >= 1 && limit >= 1
    ensures page * limit - limit >= 0
    ensures EarlierPages(all, page, limit) == all[..Cap(page * limit - limit, |all|)]
    decreases page
  {
    SkipArithmetic(page, limit);
    PageEnds(page, limit);
    if page > 1 {
      SkipIsPreviousPages(all, page - 1, limit);
      SkipArithmetic(page - 1, limit);
      PageAfterPrefix(all, page - 1, limit);
    }
  }

  /** The first pages followed by the next page are the first pages and one more. */
  lemma PageAfterPrefix<T>(all: seq<T>, k: nat, limit: nat)
    requires k >= 1
    ensures (k - 1) * limit >= 0 && k * limit >= (k - 1) * limit
    ensures all[..Cap((k - 1) * limit, |all|)] + PageOf(all, k, limit) == all[..Cap(k * limit, |all|)]
  {
    PageEnds(k, limit);
    var lo := Cap((k - 1) * limit, |all|);
    var hi := Cap(k * limit, |all|);
    assert all[..lo] + all[lo..hi] == all[..hi];
  }

  /** `paginate` with the document count as a parameter. Callers never pass a zero limit
      (`Number(..) || 10` rules it out); a negative one gives no positive page count. */
  function Paginate(page: int, limit: int, count: nat): (m: PageMeta)
    requires limit != 0
    ensures m.page == page && m.limit == limit
    ensures limit > 0 ==> (m.total - 1) * limit < count <= m.total * limit
    ensures limit < 0 ==> m.total <= 0
    ensures m.next == page + 1 && m.prev == page - 1
    ensures m.hasPrev <==> page >= 2
  {
    var total := CeilDiv(count, limit);
    PageMeta(page, limit, total, page + 1, page - 1, !(page + 1 > total), !(page - 1 <= 0))
  }

  /** There is a next page exactly when some document lies beyond the current page's
      slice `[(page-1)*limit, page*limit)`. */
  lemma HasNextIffMore(page: int, limit: int, count: nat)
    requires limit > 0
    ensures Paginate(page, limit, count).hasNext <==> page * limit < count
  {
    var t := CeilDiv(count, limit);
    if page + 1 <= t {
      assert page * limit <= (t - 1) * limit by { MulMono(page, t - 1, limit); }
    } else {
      assert t * limit <= page * limit by { MulMono(t, page, limit); }
    }
  }

  lemma MulMono(a: int, b: int, k: int)
    requires a <= b && k > 0
    ensures a * k <= b * k
  {
  }
}
