/** The back-office order API of src/apps/controllers/apis/adminOrder.js: listing every
    order for an admin, changing an order's state, and deleting an order. */
module AdminOrderApi {
  import opened Js
  import opened Http
  import opened Orders
  import opened Principals
  import Pagination

  const INTERNAL_ERROR: string := "Internal server error"
  const ADMIN_REQUIRED: string := "Access denied. Admin privileges required."
  /** The states `update` accepts, in the order its error message lists them. */
  const ALLOWED_NAMES: seq<string> := ["confirmed", "shipping", "delivered", "canceled"]
  const INVALID_STATUS: string := "Invalid status. Must be one of: confirmed, shipping, delivered, canceled"

  function NotFound(id: string): string {
    "Order with id " + id + " not found"
  }

  // ----- findAll -----

  /** The query string of `findAll`. */
  datatype AdminQuery = AdminQuery(status: Option<string>, page: Option<string>, limit: Option<string>)

  /** The `find` options: the status filter (absent means every order), page, limit, skip. */
  datatype ListOptions = ListOptions(status: Option<string>, page: int, limit: int, skip: int)

  /** What a successful `findAll` answers besides its message: the ids the filter selects
      and the page metadata computed over them. */
  datatype AdminListing = AdminListing(options: ListOptions, selected: set<string>, pages: Pagination.PageMeta)

  /** The options `findAll` builds before it checks the caller. */
  function Options(q: AdminQuery): (o: ListOptions)
    ensures o.status.Some? <==> Present(q.status)
    ensures o.status.Some? ==> o.status == q.status
    ensures o.page == NumberOr(q.page, 1) && o.limit == NumberOr(q.limit, 10)
    ensures o.page != 0 && o.limit != 0
    ensures o.skip == (o.page - 1) * o.limit
  {
    var page := NumberOr(q.page, 1);
    var limit := NumberOr(q.limit, 10);
    Pagination.SkipArithmetic(page, limit);
    ListOptions(if Present(q.status) then q.status else None, page, limit, page * limit - limit)
  }

  /** The status filter of the query: any text, checked against the stored state name. */
  predicate Selects(o: ListOptions, d: Order) {
    o.status.None? || StatusName(d.status) == o.status.value
  }

  /** `findAll`: 403 unless the attached user has the `admin` role; then the orders the
      filter selects. A negative skip makes the database refuse the query, which ends in
      500. */
  function FindAll(orders: map<string, Order>, user: Option<User>, q: AdminQuery): (r: (Reply, Option<AdminListing>))
    ensures r.1.Some? <==> user.Some? && user.value.role == "admin" && Options(q).skip >= 0
    ensures !(user.Some? && user.value.role == "admin") ==> r == (Reply(403, ADMIN_REQUIRED), None)
    ensures user.Some? && user.value.role == "admin" && Options(q).skip < 0 ==> r == (Reply(500, INTERNAL_ERROR), None)
    ensures r.1.Some? ==> && r.0 == Reply(200, "Get all orders successfully")
                          && r.1.value.options == Options(q)
                          && (forall k :: k in r.1.value.selected <==> k in orders && Selects(Options(q), orders[k]))
                          && r.1.value.pages == Pagination.Paginate(Options(q).page, Options(q).limit, |r.1.value.selected|)
  {
    var o := Options(q);
    if user.None? || user.value.role != "admin" then (Reply(403, ADMIN_REQUIRED), None)
    else if o.skip < 0 then (Reply(500, INTERNAL_ERROR), None)
    else
      var selected := set k | k in orders && Selects(o, orders[k]);
      (Reply(200, "Get all orders successfully"), Some(AdminListing(o, selected, Pagination.Paginate(o.page, o.limit, |selected|))))
  }

  // ----- update -----

  /** `status && allowedStatus.includes(status)`: a string among the four allowed names. */
  function AdminTarget(v: JsValue): (r: Option<OrderStatus>)
    ensures r.Some? <==> v.Str? && v.s in ALLOWED_NAMES
    ensures r.Some? ==> StatusName(r.value) == v.s
  {
    if v.Str? && v.s in ALLOWED_NAMES then ParseStatus(v.s) else None
  }

  /** `update`: the requested state is checked before the order is looked up, and the
      order's current state plays no part. */
  function Update(orders: map<string, Order>, id: string, v: JsValue): (r: (Reply, map<string, Order>))
    ensures r.1.Keys == orders.Keys
    ensures forall k :: k in orders && k != id ==> r.1[k] == orders[k]
    ensures AdminTarget(v).None? ==> r == (Reply(400, INVALID_STATUS), orders)
    ensures AdminTarget(v).Some? && id !in orders ==> r == (Reply(404, NotFound(id)), orders)
    ensures AdminTarget(v).Some? && id in orders ==>
              r.0 == Reply(200, "Order updated successfully") && r.1[id] == orders[id].(status := AdminTarget(v).value)
  {
    match AdminTarget(v)
    case None => (Reply(400, INVALID_STATUS), orders)
    case Some(st) =>
      if id !in orders then (Reply(404, NotFound(id)), orders)
      else (Reply(200, "Order updated successfully"), orders[id := orders[id].(status := st)])
  }

  // ----- remove -----

  /** `remove` */
  function Remove(orders: map<string, Order>, id: string): (r: (Reply, map<string, Order>))
    ensures r.1 == orders - {id}
    ensures r.0 == (if id in orders then Reply(200, "Order deleted successfully") else Reply(404, NotFound(id)))
  {
    if id in orders then (Reply(200, "Order deleted successfully"), orders - {id})
    else (Reply(404, NotFound(id)), orders)
  }

  // ----- Properties -----

  /** The admin can move an order to exactly the four non-initial states; `pending`,
      another text or a non-string is refused. */
  lemma AdminTargets(v: JsValue)
    ensures AdminTarget(v).Some? <==> exists st :: st != Pending && v == Str(StatusName(st))
  {
    if AdminTarget(v).Some? {
      assert v == Str(StatusName(AdminTarget(v).value));
    }
  }

  /** Validation comes first: a bad state on a missing order answers 400, not 404. */
  lemma InvalidBeforeMissing(orders: map<string, Order>, id: string, v: JsValue)
    requires id !in orders && !(v.Str? && v.s in ALLOWED_NAMES)
    ensures Update(orders, id, v).0.status == 400
  {
  }

  /** Any allowed state is reachable from any current state, a canceled or delivered order
      included: the admin API has no transition rule. */
  lemma AnyStateReachable(orders: map<string, Order>, id: string, st: OrderStatus)
    requires id in orders && st != Pending
    ensures Update(orders, id, Str(StatusName(st))).1[id].status == st
  {
  }

  /** An order the customer can no longer cancel (it is delivered, say) the admin still
      can, and the admin can revive a canceled order. */
  lemma AdminOverridesCustomerRule(orders: map<string, Order>, id: string)
    requires id in orders && orders[id].status == Delivered
    ensures Update(orders, id, Str("canceled")).1[id].status == Canceled
    ensures Update(Update(orders, id, Str("canceled")).1, id, Str("shipping")).1[id].status == Shipping
  {
    assert AdminTarget(Str("canceled")) == Some(Canceled);
    assert AdminTarget(Str("shipping")) == Some(Shipping);
  }

  /** Updates keep the stored documents valid, and repeating one changes nothing more. */
  lemma UpdateKeepsValidAndSettles(orders: map<string, Order>, id: string, v: JsValue)
    requires forall k :: k in orders ==> ValidOrder(orders[k])
    ensures var once := Update(orders, id, v).1;
            && (forall k :: k in once ==> ValidOrder(once[k]))
            && Update(once, id, v).1 == once
  {
    UpdateKeepsValid(orders, id, v);
    UpdateSettles(orders, id, v);
  }

  lemma UpdateKeepsValid(orders: map<string, Order>, id: string, v: JsValue)
    requires forall k :: k in orders ==> ValidOrder(orders[k])
    ensures var once := Update(orders, id, v).1;
            forall k :: k in once ==> ValidOrder(once[k])
  {
    if AdminTarget(v).Some? && id in orders {
      StatusChangeKeepsValid(orders[id], AdminTarget(v).value);
    }
  }

  lemma UpdateSettles(orders: map<string, Order>, id: string, v: JsValue)
    ensures var once := Update(orders, id, v).1;
            Update(once, id, v).1 == once
  {
  }

  /** After a delete the order is gone: deleting again, or updating it, answers 404. */
  lemma RemoveThenMissing(orders: map<string, Order>, id: string, st: OrderStatus)
    requires st != Pending
    ensures var gone := Remove(orders, id).1;
            && Remove(gone, id).0 == Reply(404, NotFound(id))
            && Update(gone, id, Str(StatusName(st))).0 == Reply(404, NotFound(id))
  {
  }

  /** Only an admin is answered with orders; a member or a missing user is refused before
      any query runs. */
  lemma MembersRefused(orders: map<string, Order>, u: User, q: AdminQuery)
    requires u.role != "admin"
    ensures FindAll(orders, Some(u), q) == (Reply(403, ADMIN_REQUIRED), None)
    ensures FindAll(orders, None, q) == (Reply(403, ADMIN_REQUIRED), None)
  {
  }

  /** Without a status in the query every order is selected; a status text that names no
      state (`all`, or a name with a trailing blank) selects none. */
  lemma StatusFilterSelects(orders: map<string, Order>, admin: User, q: AdminQuery)
    requires admin.role == "admin" && Options(q).skip >= 0
    ensures var l := FindAll(orders, Some(admin), q).1.value;
            && (!Present(q.status) ==> l.selected == orders.Keys)
            && (Present(q.status) && ParseStatus(q.status.value).None? ==> l.selected == {})
  {
    var l := FindAll(orders, Some(admin), q).1.value;
    if Present(q.status) && ParseStatus(q.status.value).None? {
      forall k | k in l.selected ensures false {
        StatusNamesParse(orders[k].status);
      }
    }
  }

  /** The default query: first page of ten, nothing skipped, every order. */
  lemma DefaultQuery(orders: map<string, Order>, admin: User)
    requires admin.role == "admin"
    ensures var l := FindAll(orders, Some(admin), AdminQuery(None, None, None)).1;
            l.Some? && l.value.options == ListOptions(None, 1, 10, 0)
  {
  }
}
