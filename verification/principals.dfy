/** The two kinds of account (src/apps/models/customer.js and user.js), the queries the
    handlers run against them, and the payload a stored document hands to the token
    generators. A collection is a sequence in insertion order; a query returns the first
    match, as `findOne` does. */
module Principals {
  import opened Js
  import opened Codec

  /** A customer document. `password` is the stored hash, absent in a `.select("-password")` view. */
  datatype Customer = Customer(
    id: string, fullName: string, email: string, password: Option<string>,
    phone: string, address: string, role: string)

  /** A back-office user document. */
  datatype User = User(id: string, email: string, password: Option<string>, role: string)

  const CUSTOMER_ROLES: seq<string> := ["customer", "admin"]
  const DEFAULT_CUSTOMER_ROLE: string := "customer"
  const USER_ROLES: seq<string> := ["admin", "member"]
  const DEFAULT_USER_ROLE: string := "member"

  /** Index of the first element satisfying `p`. */
  function FirstIndex<T>(s: seq<T>, p: T -> bool): (r: Option<nat>)
    ensures r.None? <==> forall i :: 0 <= i < |s| ==> !p(s[i])
    ensures r.Some? ==> r.value < |s| && p(s[r.value]) && forall j :: 0 <= j < r.value ==> !p(s[j])
  {
    if s == [] then None
    else if p(s[0]) then Some(0)
    else match FirstIndex(s[1..], p)
      case None => None
      case Some(k) => Some(k + 1)
  }

  /** The first element satisfying `p`. */
  function First<T>(s: seq<T>, p: T -> bool): (r: Option<T>)
    ensures r.None? <==> forall i :: 0 <= i < |s| ==> !p(s[i])
    ensures r.Some? ==> p(r.value)
  {
    match FirstIndex(s, p)
    case None => None
    case Some(k) => Some(s[k])
  }

  /** The element at `k` is the first one satisfying `p` when none before it does. */
  lemma FirstAt<T>(s: seq<T>, p: T -> bool, k: nat)
    requires k < |s| && p(s[k]) && forall j :: 0 <= j < k ==> !p(s[j])
    ensures First(s, p) == Some(s[k])
  {
  }

  /** `CustomerModel.findById(id)`; `findById(undefined)` finds nothing. */
  function CustomerById(cs: seq<Customer>, id: Option<string>): (r: Option<Customer>)
    ensures r.Some? ==> id.Some? && r.value.id == id.value && r.value in cs
    ensures r.None? <==> id.None? || forall i :: 0 <= i < |cs| ==> cs[i].id != id.value
  {
    if id.None? then None else First(cs, (c: Customer) => c.id == id.value)
  }

  /** `CustomerModel.findOne({ email })` */
  function CustomerByEmail(cs: seq<Customer>, email: string): (r: Option<Customer>)
    ensures r.Some? ==> r.value.email == email && r.value in cs
    ensures r.None? <==> forall i :: 0 <= i < |cs| ==> cs[i].email != email
  {
    First(cs, (c: Customer) => c.email == email)
  }

  /** `UserModel.findById(id)` */
  function UserById(us: seq<User>, id: Option<string>): (r: Option<User>)
    ensures r.Some? ==> id.Some? && r.value.id == id.value && r.value in us
    ensures r.None? <==> id.None? || forall i :: 0 <= i < |us| ==> us[i].id != id.value
  {
    if id.None? then None else First(us, (u: User) => u.id == id.value)
  }

  /** `UserModel.findOne({ email })` */
  function UserByEmail(us: seq<User>, email: string): (r: Option<User>)
    ensures r.Some? ==> r.value.email == email && r.value in us
    ensures r.None? <==> forall i :: 0 <= i < |us| ==> us[i].email != email
  {
    First(us, (u: User) => u.email == email)
  }

  /** The document without its password (`.select("-password")`, or `toObject()` with the
      password destructured away). */
  function CustomerView(c: Customer): Customer {
    c.(password := None)
  }

  function UserView(u: User): User {
    u.(password := None)
  }

  /** A customer document as a generator payload: `_id`, the `id` virtual and the role getter all answer. */
  function CustomerPayload(c: Customer): Payload {
    Payload(Some(c.id), Some(c.id), Some(c.email), Some(c.role), Some(c.role))
  }

  function UserPayload(u: User): Payload {
    Payload(Some(u.id), Some(u.id), Some(u.email), Some(u.role), Some(u.role))
  }

  /** A token minted for a document names the document and carries its email and role
      (an empty role is left out of the token). */
  lemma CustomerClaims(c: Customer)
    ensures ClaimsOf(CustomerPayload(c)) ==
            Claims(Some(c.id), Some(c.email), if c.role == "" then None else Some(c.role))
  {
  }

  lemma UserClaims(u: User)
    ensures ClaimsOf(UserPayload(u)) ==
            Claims(Some(u.id), Some(u.email), if u.role == "" then None else Some(u.role))
  {
  }
}
