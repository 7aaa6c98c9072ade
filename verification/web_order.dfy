/** The order pages of the admin site, src/apps/controllers/web/order.js: the filtered
    and paged list, the detail view's line items, the status form and deletion. Pages
    answer with a rendered view or a redirect carrying a flash message. */
module OrderPages {
  import opened Js
  import opened Http
  import opened Orders
  import Pagination
  import Banner
  import AdminOrderApi

  /** The five states the page offers, the whole `status` enum. */
  const STATUS_OPTIONS: seq<string> := ["pending", "confirmed", "shipping", "delivered", "canceled"]
  const PAGE_SIZE: int := 10
  const ORDERS_PATH: string := "/admin/orders"
  const NOT_FOUND: string := "Không tìm thấy đơn hàng"
  const INVALID_STATUS: string := "Trạng thái không hợp lệ"
  const LIST_FAILED: string := "Không thể tải danh sách đơn hàng"
  /** The name shown for a line whose product no longer exists. */
  const DELETED_PRODUCT: string := "Sản phẩm đã xóa"

  function DetailPath(id: string): string {
    "/admin/orders/detail/" + id
  }

  // ----- list -----

  /** The query string of `list`. */
  datatype ListQuery = ListQuery(page: Option<string>, status: Option<string>, search: Option<string>)

  /** The `find` filter: the state to match, the search term (matched against email and
      phone, whose regular expressions are not modelled), and whether the term may also
      match the order id. */
  datatype Filter = Filter(status: Option<OrderStatus>, search: Option<string>, byId: bool)

  /** `/^[a-f\d]{24}$/i`: exactly 24 hexadecimal digits in either case. */
  predicate LooksLikeId(s: string) {
    |s| == 24 && forall i :: 0 <= i < |s| ==> IsHexDigit(s[i])
  }

  /** `status && STATUS_OPTIONS.includes(status)` */
  function StatusFilter(status: Option<string>): (r: Option<OrderStatus>)
    ensures r.Some? <==> status.Some? && status.value in STATUS_OPTIONS
    ensures r.Some? ==> StatusName(r.value) == status.value
  {
    if status.Some? && status.value in STATUS_OPTIONS then ParseStatus(status.value) else None
  }

  /** The filter `list` builds from its query. */
  function ListFilter(q: ListQuery): (f: Filter)
    ensures f.status == StatusFilter(q.status)
    ensures f.search.Some? <==> q.search.Some? && Trim(q.search.value) != []
    ensures f.search.Some? ==> f.search.value == Trim(q.search.value)
    ensures f.byId <==> f.search.Some? && LooksLikeId(f.search.value)
  {
    var term := if q.search.Some? && Trim(q.search.value) != [] then Some(Trim(q.search.value)) else None;
    Filter(StatusFilter(q.status), term, term.Some? && LooksLikeId(term.value))
  }

  /** The paging fields the list view renders. */
  datatype Nav = Nav(page: int, skip: int, totalPages: int, prev: int, next: int, items: seq<Pagination.PageItem>)

  /** Page `Number(page) || 1` of ten, for `total` matching orders: the page count
      `Math.ceil(total / 10) || 1` and the neighbours, clamped into `1..totalPages`. */
  function ListNav(pageParam: Option<string>, total: nat): (n: Nav)
    ensures n.page == NumberOr(pageParam, 1) && n.skip == (n.page - 1) * PAGE_SIZE
    ensures n.totalPages >= 1
    ensures total == 0 ==> n.totalPages == 1
    ensures total > 0 ==> (n.totalPages - 1) * PAGE_SIZE < total <= n.totalPages * PAGE_SIZE
    ensures n.prev == (if n.page > 1 then n.page - 1 else 1)
    ensures n.next == (if n.page < n.totalPages then n.page + 1 else n.totalPages)
    ensures n.items == Pagination.CompactPagination(n.totalPages, Num(n.page))
  {
    var page := NumberOr(pageParam, 1);
    var pages := CeilDiv(total, PAGE_SIZE);
    var totalPages := if pages == 0 then 1 else pages;
    Banner.PagesFit(total, PAGE_SIZE, totalPages);
    Nav(page, (page - 1) * PAGE_SIZE, totalPages,
        if page > 1 then page - 1 else 1,
        if page < totalPages then page + 1 else totalPages,
        Pagination.CompactPagination(totalPages, Num(page)))
  }

  /** What `list` answers: the rendered list, or (when the database refuses a negative
      skip) a redirect to the dashboard. `currentStatus` echoes the raw query. */
  datatype ListPage = Rendered(filter: Filter, nav: Nav, currentStatus: string, search: string)
                    | ListFailed(redirect: Redirect)

  /** `list`, with `total` the number of orders the filter matches. `searchCompiles` says
      whether the trimmed search term is a valid regular expression: when it is not,
      `new RegExp(s, 'i')` throws and the catch redirects. The regular-expression grammar
      itself is not modelled. */
  function List(q: ListQuery, total: nat, searchCompiles: bool): (r: ListPage)
    ensures r.ListFailed? <==> (ListFilter(q).search.Some? && !searchCompiles) || NumberOr(q.page, 1) < 1
    ensures r.ListFailed? ==> r.redirect == Redirect("/admin", FlashError(LIST_FAILED))
    ensures r.Rendered? ==> && r.filter == ListFilter(q) && r.nav == ListNav(q.page, total)
                            && r.currentStatus == (if Present(q.status) then q.status.value else "all")
                            && r.search == (if Present(q.search) then q.search.value else "")
  {
    var nav := ListNav(q.page, total);
    if ListFilter(q).search.Some? && !searchCompiles then ListFailed(Redirect("/admin", FlashError(LIST_FAILED)))
    else if nav.skip < 0 then ListFailed(Redirect("/admin", FlashError(LIST_FAILED)))
    else Rendered(ListFilter(q), nav, if Present(q.status) then q.status.value else "all",
                  if Present(q.search) then q.search.value else "")
  }

  // ----- detail -----

  /** The product fields the detail view reads. */
  datatype ProductCard = ProductCard(name: string, thumbnail: Option<string>)

  /** A rendered line: the stored item with its product's name and thumbnail, unit price
      and subtotal. */
  datatype DetailLine = DetailLine(item: Item, name: string, thumb: Option<string>, unitPrice: int, subTotal: int)

  function DetailLineOf(it: Item, catalog: map<string, ProductCard>): (l: DetailLine)
    ensures l.item == it && l.unitPrice == it.price && l.subTotal == it.qty * it.price
    ensures it.productId in catalog ==> l.name == catalog[it.productId].name && l.thumb == catalog[it.productId].thumbnail
    ensures it.productId !in catalog ==> l.name == DELETED_PRODUCT && l.thumb.None?
  {
    if it.productId in catalog then
      var p := catalog[it.productId];
      DetailLine(it, p.name, p.thumbnail, it.price, it.qty * it.price)
    else DetailLine(it, DELETED_PRODUCT, None, it.price, it.qty * it.price)
  }

  /** `order.items.map(...)`, line by line in stored order. */
  function DetailLines(items: seq<Item>, catalog: map<string, ProductCard>): (r: seq<DetailLine>)
    ensures |r| == |items|
    ensures forall i :: 0 <= i < |items| ==> r[i] == DetailLineOf(items[i], catalog)
  {
    if items == [] then [] else [DetailLineOf(items[0], catalog)] + DetailLines(items[1..], catalog)
  }

  /** The sum of the rendered subtotals. */
  function SubTotals(lines: seq<DetailLine>): int {
    if lines == [] then 0 else lines[0].subTotal + SubTotals(lines[1..])
  }

  datatype DetailPage = Shown(order: Order, lines: seq<DetailLine>) | DetailMissing(redirect: Redirect)

  /** `detail`: the order with its lines, or a redirect to the list. */
  function Detail(orders: map<string, Order>, id: string, catalog: map<string, ProductCard>): (r: DetailPage)
    ensures r.Shown? <==> id in orders
    ensures r.Shown? ==> r.order == orders[id] && |r.lines| == |orders[id].items|
    ensures r.Shown? ==> r.lines == DetailLines(orders[id].items, catalog)
    ensures r.DetailMissing? ==> r.redirect == Redirect(ORDERS_PATH, FlashError(NOT_FOUND))
  {
    if id in orders then Shown(orders[id], DetailLines(orders[id].items, catalog))
    else DetailMissing(Redirect(ORDERS_PATH, FlashError(NOT_FOUND)))
  }

  // ----- updateStatus and delete -----

  /** `STATUS_OPTIONS.includes(status)`: strict equality, so only a string matches. */
  function FormStatus(v: JsValue): (r: Option<OrderStatus>)
    ensures r.Some? <==> v.Str? && v.s in STATUS_OPTIONS
    ensures r.Some? ==> StatusName(r.value) == v.s
  {
    if v.Str? && v.s in STATUS_OPTIONS then ParseStatus(v.s) else None
  }

  /** `updateStatus`: a state outside the options goes back to the detail page, an unknown
      order to the list, both unchanged; otherwise the order takes the state. */
  function UpdateStatus(orders: map<string, Order>, id: string, v: JsValue): (r: (Redirect, map<string, Order>))
    ensures r.1.Keys == orders.Keys
    ensures forall k :: k in orders && k != id ==> r.1[k] == orders[k]
    ensures FormStatus(v).None? ==> r == (Redirect(DetailPath(id), FlashError(INVALID_STATUS)), orders)
    ensures FormStatus(v).Some? && id !in orders ==> r == (Redirect(ORDERS_PATH, FlashError(NOT_FOUND)), orders)
    ensures FormStatus(v).Some? && id in orders ==>
              && r.0 == Redirect(DetailPath(id), FlashSuccess("Cập nhật trạng thái thành công"))
              && r.1[id] == orders[id].(status := FormStatus(v).value)
  {
    match FormStatus(v)
    case None => (Redirect(DetailPath(id), FlashError(INVALID_STATUS)), orders)
    case Some(st) =>
      if id !in orders then (Redirect(ORDERS_PATH, FlashError(NOT_FOUND)), orders)
      else (Redirect(DetailPath(id), FlashSuccess("Cập nhật trạng thái thành công")), orders[id := orders[id].(status := st)])
  }

  /** `delete` */
  function Delete(orders: map<string, Order>, id: string): (r: (Redirect, map<string, Order>))
    ensures r.1 == orders - {id}
    ensures r.0 == Redirect(ORDERS_PATH, if id in orders then FlashSuccess("Xóa đơn hàng thành công") else FlashError(NOT_FOUND))
  {
    if id in orders then (Redirect(ORDERS_PATH, FlashSuccess("Xóa đơn hàng thành công")), orders - {id})
    else (Redirect(ORDERS_PATH, FlashError(NOT_FOUND)), orders)
  }

  // ----- Properties -----

  /** The status filter names exactly the five states: each state's name selects it, and
      any other text (`all`, a blank, a capitalised name) leaves the filter off. */
  lemma StatusFilterExact(status: Option<string>)
    ensures StatusFilter(status).Some? <==> exists st :: status == Some(StatusName(st))
  {
    if StatusFilter(status).Some? {
      assert status == Some(StatusName(StatusFilter(status).value));
    }
  }

  /** The lower-case hexadecimal text of a 12-byte id. */
  function HexText(bytes: seq<bv8>): (s: string)
    ensures |s| == 2 * |bytes|
    ensures forall i :: 0 <= i < |s| ==> IsHexDigit(s[i])
  {
    if bytes == [] then []
    else [HexChar((bytes[0] / 16) as int), HexChar((bytes[0] % 16) as int)] + HexText(bytes[1..])
  }

  function HexChar(d: int): (c: char)
    requires 0 <= d < 16
    ensures IsHexDigit(c) && ('0' <= c <= '9' || 'a' <= c <= 'f')
  {
    if d < 10 then ('0' as int + d) as char else ('a' as int + d - 10) as char
  }

  /** The text of a 12-byte ObjectId has the shape the search tests for. */
  lemma HexIdLooksLikeId(bytes: seq<bv8>)
    requires |bytes| == 12
    ensures LooksLikeId(HexText(bytes))
  {
  }

  /** An id typed in capitals is still searched by id. */
  lemma UpperIdFound(s: string, page: Option<string>, status: Option<string>)
    requires LooksLikeId(s)
    ensures ListFilter(ListQuery(page, status, Some(Upper(s)))).byId
  {
    UpperKeepsId(s);
    IdFoundAsTyped(Upper(s), page, status);
  }

  lemma IdFoundAsTyped(s: string, page: Option<string>, status: Option<string>)
    requires LooksLikeId(s)
    ensures ListFilter(ListQuery(page, status, Some(s))).byId
  {
    assert !IsWhite(s[0]);
    IdTermFound(s, s, page, status);
  }

  /** An id typed with blanks before it is still searched by id. */
  lemma PaddedIdFound(s: string, pad: string, page: Option<string>, status: Option<string>)
    requires LooksLikeId(s)
    requires forall i :: 0 <= i < |pad| ==> IsWhite(pad[i])
    ensures ListFilter(ListQuery(page, status, Some(pad + s))).byId
  {
    TrimStartPadded(pad, s);
    IdTermFound(s, pad + s, page, status);
  }

  /** A term whose trimmed start is an id text, and has nothing after it, searches by id. */
  lemma IdTermFound(s: string, term: string, page: Option<string>, status: Option<string>)
    requires LooksLikeId(s) && TrimStart(term) == s
    ensures ListFilter(ListQuery(page, status, Some(term))).byId
  {
    assert !IsWhite(s[|s| - 1]);
    assert Trim(term) == s;
  }

  lemma UpperKeepsId(s: string)
    requires LooksLikeId(s)
    ensures LooksLikeId(Upper(s))
  {
    forall i | 0 <= i < |s| ensures IsHexDigit(Upper(s)[i]) {
      assert IsHexDigit(s[i]);
    }
  }

  /** A term that is not exactly 24 hexadecimal digits after trimming never matches ids. */
  lemma NonIdTermsSearchText(q: ListQuery)
    requires q.search.Some? && Trim(q.search.value) != []
    requires |Trim(q.search.value)| != 24 || exists i :: 0 <= i < |Trim(q.search.value)| && !IsHexDigit(Trim(q.search.value)[i])
    ensures !ListFilter(q).byId && ListFilter(q).search == Some(Trim(q.search.value))
  {
  }

  /** Whatever the page requested, the rendered neighbours stay in `1..totalPages` once
      the page itself is in range, and the last page holds the last order. */
  lemma NavInRange(pageParam: Option<string>, total: nat)
    ensures var n := ListNav(pageParam, total);
            && n.prev >= 1 && n.next <= n.totalPages
            && (1 <= n.page <= n.totalPages ==> n.prev <= n.page <= n.next && n.next >= 1 && n.prev <= n.totalPages)
  {
  }

  /** The rendered subtotals add up to the sum of quantity times price, which is the stored
      total of every order `order` creates. */
  lemma {:induction false} SubtotalsAddUp(items: seq<Item>, catalog: map<string, ProductCard>)
    ensures SubTotals(DetailLines(items, catalog)) == Total(items)
  {
    if items != [] {
      var r := DetailLines(items, catalog);
      assert r[1..] == DetailLines(items[1..], catalog);
      SubtotalsAddUp(items[1..], catalog);
    }
  }

  /** A deleted product keeps its line, under the placeholder name and at its stored price. */
  lemma DeletedProductLine(o: Order, catalog: map<string, ProductCard>, i: int)
    requires 0 <= i < |o.items| && o.items[i].productId !in catalog
    ensures var l := DetailLines(o.items, catalog)[i];
            l.name == DELETED_PRODUCT && l.thumb.None? && l.subTotal == o.items[i].qty * o.items[i].price
  {
  }

  /** The page sets any of the five states from any state; `pending` too, which the admin
      API refuses. */
  lemma PageSetsAnyState(orders: map<string, Order>, id: string, st: OrderStatus)
    requires id in orders
    ensures UpdateStatus(orders, id, Str(StatusName(st))).1[id].status == st
    ensures st == Pending ==> AdminOrderApi.Update(orders, id, Str(StatusName(st))).1 == orders
  {
    assert FormStatus(Str(StatusName(st))) == Some(st);
  }

  /** Unknown ids and unknown states change nothing; the redirect says which. */
  lemma RejectedFormsChangeNothing(orders: map<string, Order>, id: string, v: JsValue)
    requires id !in orders || FormStatus(v).None?
    ensures UpdateStatus(orders, id, v).1 == orders
    ensures id !in orders ==> Delete(orders, id) == (Redirect(ORDERS_PATH, FlashError(NOT_FOUND)), orders)
    ensures FormStatus(v).Some? ==> UpdateStatus(orders, id, v).0.location == ORDERS_PATH
  {
  }

  /** The page's updates keep every stored order valid. */
  lemma UpdateStatusKeepsValid(orders: map<string, Order>, id: string, v: JsValue)
    requires forall k :: k in orders ==> ValidOrder(orders[k])
    ensures var after := UpdateStatus(orders, id, v).1;
            forall k :: k in after ==> ValidOrder(after[k])
  {
    if FormStatus(v).Some? && id in orders {
      StatusChangeKeepsValid(orders[id], FormStatus(v).value);
    }
  }
}
