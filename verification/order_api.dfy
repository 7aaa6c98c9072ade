/** The customer-facing order API of src/apps/controllers/apis/order.js: placing an order
    with the total taken from stored prices, listing and reading one's orders, and
    cancelling. Orders are a map from id to document and product prices a map from id to
    price. `customer` is what the gate in front of the route attached: for placing an
    order the optional `verifyCustomer`, which leaves null for a guest; for listing,
    reading and cancelling `verifyAccessToken`, which answers 401 without a token and
    leaves null only when a verified, unrevoked access token names no customer (a staff
    user's token, minted with the same access key, or a deleted customer's). */
module OrderApi {
  import opened Js
  import opened Http
  import opened Orders
  import opened Principals
  import Codec
  import Revocation
  import Gates

  const INTERNAL_ERROR: string := "Internal server error"
  const MISSING_PRODUCT_ID: string := "Product ID is required in each item"

  /** One entry of the request's `items`. `price` is whatever the client sent; the
      handler never reads it. */
  datatype ItemRequest = ItemRequest(productIdField: Option<string>, prdIdField: Option<string>,
                                     quantity: Option<int>, qty: Option<int>, price: JsValue)

  /** The request body of `order`. `items` is absent when the client sent none. */
  datatype OrderBody = OrderBody(fullName: Option<string>, email: Option<string>, phone: Option<string>,
                                 address: Option<string>, items: Option<seq<ItemRequest>>)

  /** `item.product_id || item.prd_id` */
  function ProductId(req: ItemRequest): Option<string> {
    OrElse(req.productIdField, req.prdIdField)
  }

  /** `item.quantity || item.qty || 1`: a zero counts as absent. */
  function Quantity(req: ItemRequest): (q: int)
    ensures q != 0
    ensures req.quantity.Some? && req.quantity.value != 0 ==> q == req.quantity.value
    ensures !(req.quantity.Some? && req.quantity.value != 0) && req.qty.Some? && req.qty.value != 0 ==> q == req.qty.value
    ensures q == 1 || Some(q) == req.quantity || Some(q) == req.qty
  {
    if req.quantity.Some? && req.quantity.value != 0 then req.quantity.value
    else if req.qty.Some? && req.qty.value != 0 then req.qty.value
    else 1
  }

  /** An item the loop gets past: it names a product, and that product exists. */
  predicate Resolves(req: ItemRequest, prices: map<string, int>) {
    Present(ProductId(req)) && ProductId(req).value in prices
  }

  predicate AllResolve(reqs: seq<ItemRequest>, prices: map<string, int>) {
    forall i :: 0 <= i < |reqs| ==> Resolves(reqs[i], prices)
  }

  /** Item `k` is the first one the loop stops at. */
  predicate FirstRefused(reqs: seq<ItemRequest>, prices: map<string, int>, k: int) {
    0 <= k < |reqs| && !Resolves(reqs[k], prices) && forall j :: 0 <= j < k ==> Resolves(reqs[j], prices)
  }

  /** The 400 answer for an item that does not resolve. */
  function Refusal(req: ItemRequest, prices: map<string, int>): (r: Reply)
    requires !Resolves(req, prices)
    ensures r.status == 400
  {
    if !Present(ProductId(req)) then Reply(400, MISSING_PRODUCT_ID)
    else Reply(400, "Product " + ProductId(req).value + " not found")
  }

  /** The stored line for a resolved item: the product's id, the quantity, and the price
      the product has in the store. */
  function Line(req: ItemRequest, prices: map<string, int>): (it: Item)
    requires Resolves(req, prices)
    ensures it.productId == ProductId(req).value && it.qty == Quantity(req)
    ensures it.price == prices[ProductId(req).value]
  {
    var id := ProductId(req).value;
    Item(id, Quantity(req), prices[id])
  }

  /** The outcome of the item loop: the lines and the running total, or the answer of the
      first item that stopped it. */
  datatype Lines = Lines(items: seq<Item>, total: int) | Rejected(reply: Reply)

  /** The loop over `items` from the item after `done`, with `total` accumulated so far. */
  function Collect(reqs: seq<ItemRequest>, prices: map<string, int>, done: seq<Item>, total: int): (r: Lines)
    requires total == Total(done)
    decreases |reqs|
    ensures r.Lines? <==> AllResolve(reqs, prices)
    ensures r.Lines? ==> && |r.items| == |done| + |reqs| && r.items[..|done|] == done
                         && (forall i :: 0 <= i < |reqs| ==> r.items[|done| + i] == Line(reqs[i], prices))
                         && r.total == Total(r.items)
    ensures r.Rejected? ==> exists k :: FirstRefused(reqs, prices, k) && r.reply == Refusal(reqs[k], prices)
  {
    if reqs == [] then Lines(done, total)
    else if !Resolves(reqs[0], prices) then
      assert FirstRefused(reqs, prices, 0);
      Rejected(Refusal(reqs[0], prices))
    else
      var it := Line(reqs[0], prices);
      TotalAppend(done, it);
      var r := Collect(reqs[1..], prices, done + [it], total + it.qty * it.price);
      if r.Rejected? then
        var k :| FirstRefused(reqs[1..], prices, k) && r.reply == Refusal(reqs[1..][k], prices);
        assert FirstRefused(reqs, prices, k + 1);
        r
      else
        assert AllResolve(reqs, prices) by {
          forall i | 0 <= i < |reqs| ensures Resolves(reqs[i], prices) {
            if i > 0 { assert reqs[i] == reqs[1..][i - 1]; }
          }
        }
        forall i | 0 <= i < |reqs| ensures r.items[|done| + i] == Line(reqs[i], prices) {
          if i == 0 {
            assert r.items[..|done| + 1][|done|] == it;
          } else {
            assert reqs[i] == reqs[1..][i - 1];
          }
        }
        assert r.items[..|done|] == r.items[..|done| + 1][..|done|];
        r
  }

  /** The contact and totals `OrderModel.create` receives: an attached customer's stored
      profile, otherwise the fields of the body. */
  function OrderDraft(customer: Option<Customer>, body: OrderBody, items: seq<Item>, total: int): (d: Draft)
    ensures d.items == items && d.totalPrice == total
    ensures d.customerId == (if customer.Some? then Some(customer.value.id) else None)
  {
    match customer
    case Some(c) => Draft(Some(c.id), Some(c.email), Some(c.phone), Some(c.address), total, items)
    case None => Draft(None, body.email, body.phone, body.address, total, items)
  }

  /** The order `order` stores, if it gets as far as storing one. */
  function Placed(customer: Option<Customer>, body: OrderBody, prices: map<string, int>): (r: Option<Order>)
    ensures r.Some? ==> body.items.Some? && AllResolve(body.items.value, prices)
    ensures r.Some? ==> && ValidOrder(r.value) && r.value.status == Pending
                        && |r.value.items| == |body.items.value|
                        && (forall i :: 0 <= i < |body.items.value| ==> r.value.items[i] == Line(body.items.value[i], prices))
                        && r.value.totalPrice == Total(r.value.items)
                        && r.value.customerId == (if customer.Some? then Some(customer.value.id) else None)
  {
    if body.items.None? then None
    else
      var reqs := body.items.value;
      var c := Collect(reqs, prices, [], 0);
      if c.Rejected? then None
      else
        assert forall i :: 0 <= i < |reqs| ==> c.items[i] == Line(reqs[i], prices);
        var d := OrderDraft(customer, body, c.items, c.total);
        Create(d)
  }

  /** `order(req, res)`: `newId` is the id the database assigns and `mailFails` whether the
      awaited confirmation mail throws. */
  function PlaceOrder(orders: map<string, Order>, customer: Option<Customer>, body: OrderBody,
                      prices: map<string, int>, newId: string, mailFails: bool): (r: (Reply, map<string, Order>))
    requires newId !in orders
    ensures body.items.None? ==> r == (Reply(500, INTERNAL_ERROR), orders)
    ensures body.items.Some? && !AllResolve(body.items.value, prices) ==>
              r.1 == orders && exists k :: FirstRefused(body.items.value, prices, k) && r.0 == Refusal(body.items.value[k], prices)
    ensures r.1 != orders <==> Placed(customer, body, prices).Some?
    ensures r.1 != orders ==> r.1 == orders[newId := Placed(customer, body, prices).value]
    ensures r.0.status == 201 <==> r.1 != orders && !mailFails
    ensures r.0.status == 201 ==> r.0.message == "Create order successfully"
    ensures r.1 != orders && mailFails ==> r.0 == Reply(500, INTERNAL_ERROR)
  {
    if body.items.None? then (Reply(500, INTERNAL_ERROR), orders)
    else match Collect(body.items.value, prices, [], 0)
      case Rejected(reply) => (reply, orders)
      case Lines(_, _) =>
        match Placed(customer, body, prices)
        case None => (Reply(500, INTERNAL_ERROR), orders)
        case Some(o) =>
          assert orders[newId := o] != orders by { assert newId in orders[newId := o]; }
          if mailFails then (Reply(500, INTERNAL_ERROR), orders[newId := o])
          else (Reply(201, "Create order successfully"), orders[newId := o])
  }

  /** `findByCustomerId`: the ids of the attached customer's own orders. */
  function FindByCustomerId(orders: map<string, Order>, customer: Option<Customer>): (r: (Reply, set<string>))
    ensures customer.None? ==> r == (Reply(401, "Customer authentication required"), {})
    ensures customer.Some? ==> r.0 == Reply(200, "Get orders successfully")
    ensures customer.Some? ==> forall k :: k in r.1 <==> k in orders && orders[k].customerId == Some(customer.value.id)
  {
    match customer
    case None => (Reply(401, "Customer authentication required"), {})
    case Some(c) => (Reply(200, "Get orders successfully"), set k | k in orders && orders[k].customerId == Some(c.id))
  }

  /** `String(order.customer_id)`: a guest order's null owner reads as the text `null`. */
  function OwnerText(o: Order): string {
    if o.customerId.Some? then o.customerId.value else "null"
  }

  /** The ownership test of `findOne` and `cancel`: a caller whose verified access token
      names no customer is never refused. */
  predicate MaySee(o: Order, customer: Option<Customer>) {
    customer.None? || OwnerText(o) == customer.value.id
  }

  /** `findOne` */
  function FindOne(orders: map<string, Order>, id: string, customer: Option<Customer>): (r: (Reply, Option<Order>))
    ensures r.1.Some? <==> id in orders && MaySee(orders[id], customer)
    ensures r.1.Some? ==> r == (Reply(200, "Get order successfully"), Some(orders[id]))
    ensures id !in orders ==> r.0 == Reply(404, "Order not found")
    ensures id in orders && !MaySee(orders[id], customer) ==> r.0 == Reply(403, "Access denied")
  {
    if id !in orders then (Reply(404, "Order not found"), None)
    else if !MaySee(orders[id], customer) then (Reply(403, "Access denied"), None)
    else (Reply(200, "Get order successfully"), Some(orders[id]))
  }

  /** The states a customer may cancel from. */
  predicate Cancellable(st: OrderStatus) {
    st == Pending || st == Confirmed
  }

  /** `cancel`: 404, then the ownership check, then the state check; only a pending or
      confirmed order becomes canceled, and nothing else in the collection moves. */
  function Cancel(orders: map<string, Order>, id: string, customer: Option<Customer>): (r: (Reply, map<string, Order>))
    ensures r.1.Keys == orders.Keys
    ensures forall k :: k in orders && k != id ==> r.1[k] == orders[k]
    ensures r.1 != orders <==> id in orders && MaySee(orders[id], customer) && Cancellable(orders[id].status)
    ensures r.1 != orders ==> r == (Reply(200, "Order canceled successfully"), orders[id := orders[id].(status := Canceled)])
    ensures id !in orders ==> r.0 == Reply(404, "Order not found")
    ensures id in orders && !MaySee(orders[id], customer) ==> r.0 == Reply(403, "Access denied")
    ensures id in orders && MaySee(orders[id], customer) && !Cancellable(orders[id].status) ==>
              r.0 == Reply(400, "Cannot cancel order with status: " + StatusName(orders[id].status))
  {
    if id !in orders then (Reply(404, "Order not found"), orders)
    else
      var o := orders[id];
      if !MaySee(o, customer) then (Reply(403, "Access denied"), orders)
      else if !Cancellable(o.status) then (Reply(400, "Cannot cancel order with status: " + StatusName(o.status)), orders)
      else
        assert orders[id := o.(status := Canceled)][id] != o;
        (Reply(200, "Order canceled successfully"), orders[id := o.(status := Canceled)])
  }

  // ----- Properties -----

  /** Every document in the collection passes the schema's validators. */
  predicate ValidStore(orders: map<string, Order>) {
    forall k :: k in orders ==> ValidOrder(orders[k])
  }

  /** Placing and cancelling keep every stored document valid. */
  lemma OperationsKeepStoreValid(orders: map<string, Order>, customer: Option<Customer>, body: OrderBody,
                                 prices: map<string, int>, newId: string, mailFails: bool, id: string)
    requires ValidStore(orders) && newId !in orders
    ensures ValidStore(PlaceOrder(orders, customer, body, prices, newId, mailFails).1)
    ensures ValidStore(Cancel(orders, id, customer).1)
  {
    if id in orders {
      StatusChangeKeepsValid(orders[id], Canceled);
    }
  }

  /** The stored total is the sum over the request's items of quantity times the price the
      product has in the store, and each line records that price. */
  lemma PlacedTotal(customer: Option<Customer>, body: OrderBody, prices: map<string, int>, i: int)
    requires Placed(customer, body, prices).Some? && 0 <= i < |body.items.value|
    ensures var o := Placed(customer, body, prices).value;
            var req := body.items.value[i];
            && o.totalPrice == Total(o.items)
            && o.items[i] == Item(ProductId(req).value, Quantity(req), prices[ProductId(req).value])
  {
  }

  /** Two item lists that differ only in the `price` each entry claims. */
  predicate SameButPrices(a: seq<ItemRequest>, b: seq<ItemRequest>) {
    |a| == |b| && forall i :: 0 <= i < |a| ==> a[i].(price := Undefined) == b[i].(price := Undefined)
  }

  /** Prices sent by the client change nothing: not the answer, not what is stored. */
  lemma ClientPricesIgnored(orders: map<string, Order>, customer: Option<Customer>, body: OrderBody,
                            items: seq<ItemRequest>, prices: map<string, int>, newId: string, mailFails: bool)
    requires newId !in orders && body.items.Some? && SameButPrices(body.items.value, items)
    ensures PlaceOrder(orders, customer, body, prices, newId, mailFails)
            == PlaceOrder(orders, customer, body.(items := Some(items)), prices, newId, mailFails)
  {
    CollectIgnoresPrices(body.items.value, items, prices, [], 0);
  }

  lemma {:induction false} CollectIgnoresPrices(a: seq<ItemRequest>, b: seq<ItemRequest>, prices: map<string, int>,
                                                done: seq<Item>, total: int)
    requires total == Total(done) && SameButPrices(a, b)
    ensures Collect(a, prices, done, total) == Collect(b, prices, done, total)
    decreases |a|
  {
    if a != [] {
      assert a[0].(price := Undefined) == b[0].(price := Undefined);
      assert ProductId(a[0]) == ProductId(b[0]) && Quantity(a[0]) == Quantity(b[0]);
      if Resolves(a[0], prices) {
        var it := Line(a[0], prices);
        TotalAppend(done, it);
        assert SameButPrices(a[1..], b[1..]) by {
          forall i | 0 <= i < |a| - 1 ensures a[1..][i].(price := Undefined) == b[1..][i].(price := Undefined) {
            assert a[1..][i] == a[i + 1] && b[1..][i] == b[i + 1];
          }
        }
        CollectIgnoresPrices(a[1..], b[1..], prices, done + [it], total + it.qty * it.price);
      }
    }
  }

  /** The answer names the first item that fails, whatever comes after it, and nothing is
      stored. */
  lemma FirstBadItemAnswers(orders: map<string, Order>, customer: Option<Customer>, body: OrderBody,
                            prices: map<string, int>, newId: string, mailFails: bool, k: int)
    requires newId !in orders && body.items.Some? && FirstRefused(body.items.value, prices, k)
    ensures PlaceOrder(orders, customer, body, prices, newId, mailFails) == (Refusal(body.items.value[k], prices), orders)
  {
    var reqs := body.items.value;
    var r := PlaceOrder(orders, customer, body, prices, newId, mailFails);
    var k' :| FirstRefused(reqs, prices, k') && r.0 == Refusal(reqs[k'], prices);
  }

  /** `item.quantity` of 0 falls through to `item.qty`, as an absent one does. */
  lemma ZeroQuantityIsAbsent(req: ItemRequest)
    ensures Quantity(req.(quantity := Some(0))) == Quantity(req.(quantity := None))
    ensures req.quantity.None? && req.qty.None? ==> Quantity(req) == 1
  {
  }

  /** A negative quantity gets through the loop but not the `min: 1` validator: the
      request fails with 500 and nothing is stored. */
  lemma NegativeQuantityRejected(orders: map<string, Order>, customer: Option<Customer>, body: OrderBody,
                                 prices: map<string, int>, newId: string, mailFails: bool, i: int)
    requires newId !in orders && body.items.Some? && AllResolve(body.items.value, prices)
    requires 0 <= i < |body.items.value| && Quantity(body.items.value[i]) < 0
    ensures PlaceOrder(orders, customer, body, prices, newId, mailFails) == (Reply(500, INTERNAL_ERROR), orders)
  {
    var reqs := body.items.value;
    var l := Collect(reqs, prices, [], 0);
    assert l.items[0 + i] == Line(reqs[i], prices);
    assert !ValidItem(l.items[i]);
  }

  /** With a customer attached, the contact fields of the body play no part: the stored
      email, phone and address are the customer's own, normalised by the setters. */
  lemma CustomerContactFromProfile(c: Customer, body: OrderBody, other: OrderBody, prices: map<string, int>)
    requires body.items == other.items
    ensures Placed(Some(c), body, prices) == Placed(Some(c), other, prices)
    ensures Placed(Some(c), body, prices).Some? ==>
              var o := Placed(Some(c), body, prices).value;
              o.email == SetField(c.email, true) && o.phone == SetField(c.phone, false)
              && o.address == SetField(c.address, false)
  {
  }

  /** A guest order stores the body's contact fields and a null customer. */
  lemma GuestContactFromBody(body: OrderBody, prices: map<string, int>)
    requires Placed(None, body, prices).Some?
    ensures var o := Placed(None, body, prices).value;
            && o.customerId.None?
            && Some(o.email) == RequiredField(body.email, true)
            && Some(o.phone) == RequiredField(body.phone, false)
            && Some(o.address) == RequiredField(body.address, false)
  {
  }

  /** The order is written before the mail is sent: a failing mail answers 500 while the
      order stays stored. */
  lemma MailFailureKeepsOrder(orders: map<string, Order>, customer: Option<Customer>, body: OrderBody,
                              prices: map<string, int>, newId: string)
    requires newId !in orders && Placed(customer, body, prices).Some?
    ensures var r := PlaceOrder(orders, customer, body, prices, newId, true);
            r.0 == Reply(500, INTERNAL_ERROR) && newId in r.1 && r.1[newId] == Placed(customer, body, prices).value
  {
  }

  /** A customer who just placed an order finds it in their list, can read it and can
      cancel it; cancelling it a second time is refused with its new state named. */
  lemma PlaceReadCancel(orders: map<string, Order>, c: Customer, body: OrderBody,
                        prices: map<string, int>, newId: string, mailFails: bool)
    requires newId !in orders && Placed(Some(c), body, prices).Some?
    ensures var placed := PlaceOrder(orders, Some(c), body, prices, newId, mailFails).1;
            var canceled := Cancel(placed, newId, Some(c));
            && newId in FindByCustomerId(placed, Some(c)).1
            && FindOne(placed, newId, Some(c)).1 == Some(Placed(Some(c), body, prices).value)
            && canceled.0 == Reply(200, "Order canceled successfully")
            && canceled.1[newId].status == Canceled
            && Cancel(canceled.1, newId, Some(c)) == (Reply(400, "Cannot cancel order with status: canceled"), canceled.1)
  {
    var o := Placed(Some(c), body, prices).value;
    var placed := PlaceOrder(orders, Some(c), body, prices, newId, mailFails).1;
    assert placed == orders[newId := o];
    OwnerCancelsOnce(placed, newId, c);
  }

  /** The owner of a pending order reads it and cancels it once; the second attempt is
      refused. */
  lemma OwnerCancelsOnce(orders: map<string, Order>, id: string, c: Customer)
    requires id in orders && orders[id].customerId == Some(c.id) && orders[id].status == Pending
    ensures var canceled := Cancel(orders, id, Some(c));
            && id in FindByCustomerId(orders, Some(c)).1
            && FindOne(orders, id, Some(c)).1 == Some(orders[id])
            && canceled.0 == Reply(200, "Order canceled successfully")
            && canceled.1[id].status == Canceled
            && Cancel(canceled.1, id, Some(c)) == (Reply(400, "Cannot cancel order with status: canceled"), canceled.1)
  {
    var canceled := Cancel(orders, id, Some(c));
    assert canceled.1[id] == orders[id].(status := Canceled);
    assert MaySee(canceled.1[id], Some(c));
    assert "Cannot cancel order with status: " + StatusName(Canceled) == "Cannot cancel order with status: canceled";
  }

  /** Cancelling twice leaves the collection as after the first time. */
  lemma CancelIdempotent(orders: map<string, Order>, id: string, customer: Option<Customer>)
    ensures var once := Cancel(orders, id, customer).1;
            Cancel(once, id, customer).1 == once
  {
  }

  /** Without a customer attached there is no ownership check: a caller whose verified
      access token names no customer (a staff user's, or a deleted customer's) reads and
      cancels any open order, a customer's included. */
  lemma UnattachedCallerUnchecked(orders: map<string, Order>, id: string)
    requires id in orders
    ensures FindOne(orders, id, None).1 == Some(orders[id])
    ensures Cancellable(orders[id].status) ==> Cancel(orders, id, None).1[id].status == Canceled
  {
  }

  /** A signed-in customer is refused another customer's order and every guest order
      (a real customer id is never the text `null`). */
  lemma OthersOrdersRefused(orders: map<string, Order>, id: string, c: Customer)
    requires id in orders && c.id != "null" && orders[id].customerId != Some(c.id)
    ensures FindOne(orders, id, Some(c)).0 == Reply(403, "Access denied")
    ensures Cancel(orders, id, Some(c)) == (Reply(403, "Access denied"), orders)
  {
  }

  /** The states a customer can cancel from, spelled out: delivered, shipping and canceled
      orders stay as they are. */
  lemma CancelTransitions(orders: map<string, Order>, id: string, customer: Option<Customer>)
    requires id in orders && MaySee(orders[id], customer)
    ensures var st := orders[id].status;
            var after := Cancel(orders, id, customer).1[id].status;
            && (st in {Pending, Confirmed} ==> after == Canceled)
            && (st in {Shipping, Delivered, Canceled} ==> after == st)
  {
  }

  /** A staff user's access token passes the customer access gate, since both are signed
      with the access key, and attaches no customer when no customer has the user's id;
      with it, any order can be read and any open order cancelled. */
  lemma StaffTokenReadsAnyOrder(u: User, customers: seq<Customer>, store: Revocation.Store,
                                issuedMs: nat, nowMs: nat, orders: map<string, Order>, id: string)
    requires nowMs / 1000 < issuedMs / 1000 + Codec.SESSION_LIFETIME
    requires !Revocation.IsRevoked(store, Codec.GenerateAccessToken(UserPayload(u), issuedMs), nowMs)
    requires forall i :: 0 <= i < |customers| ==> customers[i].id != u.id
    requires id in orders
    ensures var g := Gates.CustomerAccessGate(Some("Bearer " + Codec.GenerateAccessToken(UserPayload(u), issuedMs)),
                                              Gates.Reachable(store), customers, nowMs);
            && g == Gates.Next(None)
            && FindOne(orders, id, g.attached) == (Reply(200, "Get order successfully"), Some(orders[id]))
            && (Cancellable(orders[id].status) ==> Cancel(orders, id, g.attached).1[id].status == Canceled)
  {
    Gates.StaffAccessAttachesNobody(u, customers, store, issuedMs, nowMs);
    UnattachedCallerUnchecked(orders, id);
  }
}
