/** The order document of src/apps/models/order.js: the five states, the line items, what
    the schema's setters do to the contact fields, and which documents its validators let
    through. Prices and totals are integers. */
module Orders {
  import opened Js

  datatype OrderStatus = Pending | Confirmed | Shipping | Delivered | Canceled

  /** The text the `status` enum stores. */
  function StatusName(st: OrderStatus): string {
    match st
    case Pending => "pending"
    case Confirmed => "confirmed"
    case Shipping => "shipping"
    case Delivered => "delivered"
    case Canceled => "canceled"
  }

  /** Membership in the `status` enum, read back as a state. */
  function ParseStatus(s: string): (r: Option<OrderStatus>)
    ensures r.Some? ==> StatusName(r.value) == s
  {
    if s == "pending" then Some(Pending)
    else if s == "confirmed" then Some(Confirmed)
    else if s == "shipping" then Some(Shipping)
    else if s == "delivered" then Some(Delivered)
    else if s == "canceled" then Some(Canceled)
    else None
  }

  /** Every state's name parses back to it, so the enum is exactly the five names. */
  lemma StatusNamesParse(st: OrderStatus)
    ensures ParseStatus(StatusName(st)) == Some(st)
  {
  }

  /** One entry of `items`: the product id, the quantity and the unit price. */
  datatype Item = Item(productId: string, qty: int, price: int)

  /** A stored order. `customerId` is null (`None`) for a guest order. */
  datatype Order = Order(customerId: Option<string>, email: string, phone: string, address: string,
                         totalPrice: int, status: OrderStatus, items: seq<Item>)

  /** The per-item validators: `qty` at least 1, `price` at least 0. */
  predicate ValidItem(it: Item) {
    it.qty >= 1 && it.price >= 0
  }

  /** What the setters leave in a string field: trimmed, and lower-cased for `email`. */
  predicate Normal(s: string, lowercase: bool) {
    Trimmed(s) && (lowercase ==> Lower(s) == s)
  }

  /** Every document the schema accepts: the three contact fields present and normalised,
      a non-negative total, and valid items. */
  predicate ValidOrder(o: Order) {
    && o.email != [] && Normal(o.email, true)
    && o.phone != [] && Normal(o.phone, false)
    && o.address != [] && Normal(o.address, false)
    && o.totalPrice >= 0
    && forall i :: 0 <= i < |o.items| ==> ValidItem(o.items[i])
  }

  /** The fields `OrderModel.create` receives; `status` is never among them. */
  datatype Draft = Draft(customerId: Option<string>, email: Option<string>, phone: Option<string>,
                         address: Option<string>, totalPrice: int, items: seq<Item>)

  /** The `trim` setter, followed by `lowercase` where the field has it. */
  function SetField(s: string, lowercase: bool): (r: string)
    ensures Normal(r, lowercase)
    ensures |r| <= |s|
  {
    TrimIsTrimmed(s);
    var t := Trim(s);
    if lowercase then LowerKeepsTrimmed(t); LowerTwice(t); Lower(t) else t
  }

  /** A `required` string field after its setters: an absent or blank value fails. */
  function RequiredField(v: Option<string>, lowercase: bool): (r: Option<string>)
    ensures r.Some? ==> r.value != [] && Normal(r.value, lowercase)
    ensures r.Some? <==> v.Some? && SetField(v.value, lowercase) != []
  {
    if v.None? then None
    else
      var t := SetField(v.value, lowercase);
      if t == [] then None else Some(t)
  }

  /** `OrderModel.create(draft)`: the normalised document, or `None` when a validator fails
      (the handlers turn that into their error path). The status starts at pending and the
      customer id is kept as given, null for a guest. */
  function Create(d: Draft): (r: Option<Order>)
    ensures r.Some? ==> ValidOrder(r.value)
    ensures r.Some? ==> r.value.status == Pending && r.value.customerId == d.customerId
                        && r.value.items == d.items && r.value.totalPrice == d.totalPrice
    ensures r.Some? <==> && RequiredField(d.email, true).Some?
                         && RequiredField(d.phone, false).Some?
                         && RequiredField(d.address, false).Some?
                         && d.totalPrice >= 0
                         && forall i :: 0 <= i < |d.items| ==> ValidItem(d.items[i])
  {
    var email := RequiredField(d.email, true);
    var phone := RequiredField(d.phone, false);
    var address := RequiredField(d.address, false);
    if email.Some? && phone.Some? && address.Some? && d.totalPrice >= 0
       && forall i :: 0 <= i < |d.items| ==> ValidItem(d.items[i])
    then Some(Order(d.customerId, email.value, phone.value, address.value, d.totalPrice, Pending, d.items))
    else None
  }

  /** The draft that re-creates a stored order. */
  function DraftOf(o: Order): Draft {
    Draft(o.customerId, Some(o.email), Some(o.phone), Some(o.address), o.totalPrice, o.items)
  }

  /** The setters are idempotent: creating from a valid order's own fields stores exactly
      those fields again, in the pending state. */
  lemma CreateFixesValid(o: Order)
    requires ValidOrder(o)
    ensures Create(DraftOf(o)) == Some(o.(status := Pending))
  {
    NormalFixed(o.email, true);
    NormalFixed(o.phone, false);
    NormalFixed(o.address, false);
  }

  /** Changing only the state keeps an order valid, which is why `save` after a status
      change never fails on a stored order. */
  lemma StatusChangeKeepsValid(o: Order, st: OrderStatus)
    requires ValidOrder(o)
    ensures ValidOrder(o.(status := st))
  {
  }

  /** The contact setters do not depend on surrounding blanks or on letter case: padding an
      email or writing it in capitals stores the same text. */
  lemma EmailSetterIgnoresCaseAndBlanks(e: string, pad: string)
    requires forall i :: 0 <= i < |pad| ==> IsWhite(pad[i])
    ensures SetField(pad + e, true) == SetField(e, true)
    ensures SetField(Upper(e), true) == SetField(e, true)
  {
    TrimStartPadded(pad, e);
    TrimLowerCommute(Upper(e));
    TrimLowerCommute(e);
    LowerOfUpper(e);
  }

  lemma NormalFixed(s: string, lowercase: bool)
    requires Normal(s, lowercase)
    ensures SetField(s, lowercase) == s
  {
    TrimOfTrimmed(s);
  }

  lemma LowerKeepsTrimmed(s: string)
    requires Trimmed(s)
    ensures Trimmed(Lower(s))
  {
  }

  lemma LowerTwice(s: string)
    ensures Lower(Lower(s)) == Lower(s)
  {
  }

  /** ASCII `toUpperCase`. */
  function Upper(s: string): (r: string)
    ensures |r| == |s|
    ensures forall i :: 0 <= i < |s| ==> r[i] == (if 'a' <= s[i] <= 'z' then (s[i] as int - 32) as char else s[i])
  {
    if s == [] then [] else [if 'a' <= s[0] <= 'z' then (s[0] as int - 32) as char else s[0]] + Upper(s[1..])
  }

  lemma LowerOfUpper(s: string)
    ensures Lower(Upper(s)) == Lower(s)
  {
  }

  lemma {:induction false} TrimStartPadded(pad: string, s: string)
    requires forall i :: 0 <= i < |pad| ==> IsWhite(pad[i])
    ensures TrimStart(pad + s) == TrimStart(s)
  {
    if pad != [] {
      assert (pad + s)[0] == pad[0];
      assert (pad + s)[1..] == pad[1..] + s;
      TrimStartPadded(pad[1..], s);
    } else {
      assert pad + s == s;
    }
  }

  /** Lower-casing never creates or removes a blank, so it commutes with `trim`. */
  lemma TrimLowerCommute(s: string)
    ensures Lower(Trim(s)) == Trim(Lower(s))
  {
    TrimStartLower(s);
    TrimEndLower(TrimStart(s));
  }

  lemma {:induction false} TrimStartLower(s: string)
    ensures Lower(TrimStart(s)) == TrimStart(Lower(s))
  {
    if s != [] {
      var l := Lower(s);
      assert l[0] == LowerChar(s[0]);
      LowerCharWhite(s[0]);
      if IsWhite(s[0]) {
        assert l[1..] == Lower(s[1..]);
        assert TrimStart(l) == TrimStart(l[1..]);
        TrimStartLower(s[1..]);
      } else {
        assert TrimStart(l) == l;
      }
    }
  }

  /** `toLowerCase` maps blanks to blanks and nothing else to a blank. */
  lemma LowerCharWhite(c: char)
    ensures IsWhite(LowerChar(c)) <==> IsWhite(c)
  {
  }

  lemma {:induction false} TrimEndLower(s: string)
    ensures Lower(TrimEnd(s)) == TrimEnd(Lower(s))
  {
    if s != [] {
      var n := |s| - 1;
      LowerCharWhite(s[n]);
      LowerPrefix(s, n);
      TrimEndStep(s);
      TrimEndStep(Lower(s));
      if IsWhite(s[n]) {
        TrimEndLower(s[..n]);
      }
    }
  }

  /** One step of `TrimEnd`. */
  lemma TrimEndStep(s: string)
    requires s != []
    ensures TrimEnd(s) == if IsWhite(s[|s| - 1]) then TrimEnd(s[..|s| - 1]) else s
  {
  }

  lemma LowerPrefix(s: string, n: nat)
    requires n <= |s|
    ensures Lower(s[..n]) == Lower(s)[..n]
  {
  }

  /** `totalPrice` as the schema's readers understand it: the sum of quantity times unit
      price over the items. */
  function Total(items: seq<Item>): int {
    if items == [] then 0 else items[0].qty * items[0].price + Total(items[1..])
  }

  /** Adding a line at the end adds its amount, so a running total kept in item order
      ends at `Total`. */
  lemma {:induction false} TotalAppend(items: seq<Item>, it: Item)
    ensures Total(items + [it]) == Total(items) + it.qty * it.price
  {
    if items != [] {
      assert (items + [it])[1..] == items[1..] + [it];
      TotalAppend(items[1..], it);
    }
  }

  /** Valid items have a non-negative total. */
  lemma {:induction false} ValidItemsTotal(items: seq<Item>)
    requires forall i :: 0 <= i < |items| ==> ValidItem(items[i])
    ensures Total(items) >= 0
  {
    if items != [] {
      assert ValidItem(items[0]);
      ValidItemsTotal(items[1..]);
    }
  }
}
