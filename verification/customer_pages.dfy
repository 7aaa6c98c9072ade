/** The back-office customer forms of src/apps/controllers/web/customer.js: editing and
    deleting a customer. Customers are a sequence in insertion order, as in `Principals`. */
module CustomerPages {
  import opened Js
  import opened Http
  import opened Principals
  import UserPages

  const CUSTOMERS_PATH: string := "/admin/customers"
  const FILL_ALL: string := "Vui lòng điền đầy đủ thông tin"
  const EMAIL_TAKEN: string := "Email đã tồn tại"
  const PHONE_TAKEN: string := "Số điện thoại đã tồn tại"
  const CUSTOMER_MISSING: string := "Không tìm thấy khách hàng"

  /** The fields of the edit form; there is no password field. */
  datatype CustomerForm = CustomerForm(fullName: Option<string>, email: Option<string>, phone: Option<string>,
                                       address: Option<string>, role: Option<string>)

  predicate UniqueEmails(cs: seq<Customer>) {
    forall i, j :: 0 <= i < j < |cs| ==> cs[i].email != cs[j].email
  }

  predicate UniquePhones(cs: seq<Customer>) {
    forall i, j :: 0 <= i < j < |cs| ==> cs[i].phone != cs[j].phone
  }

  predicate UniqueIds(cs: seq<Customer>) {
    forall i, j :: 0 <= i < j < |cs| ==> cs[i].id != cs[j].id
  }

  predicate EmailTakenByOther(cs: seq<Customer>, email: string, id: string) {
    exists i :: 0 <= i < |cs| && cs[i].email == email && cs[i].id != id
  }

  predicate PhoneTakenByOther(cs: seq<Customer>, phone: string, id: string) {
    exists i :: 0 <= i < |cs| && cs[i].phone == phone && cs[i].id != id
  }

  predicate Filled(f: CustomerForm) {
    Present(f.fullName) && Present(f.email) && Present(f.phone) && Present(f.address)
  }

  /** The first check of `update` the form fails: the four required fields, then an email
      another customer has, then a phone another customer has. */
  function UpdateProblem(cs: seq<Customer>, id: string, f: CustomerForm): (p: Option<string>)
    ensures p.None? <==> Filled(f) && !EmailTakenByOther(cs, f.email.value, id) && !PhoneTakenByOther(cs, f.phone.value, id)
    ensures !Filled(f) ==> p == Some(FILL_ALL)
    ensures Filled(f) && EmailTakenByOther(cs, f.email.value, id) ==> p == Some(EMAIL_TAKEN)
    ensures Filled(f) && !EmailTakenByOther(cs, f.email.value, id) && PhoneTakenByOther(cs, f.phone.value, id) ==> p == Some(PHONE_TAKEN)
  {
    if !Filled(f) then Some(FILL_ALL)
    else if EmailTakenByOther(cs, f.email.value, id) then Some(EMAIL_TAKEN)
    else if PhoneTakenByOther(cs, f.phone.value, id) then Some(PHONE_TAKEN)
    else None
  }

  /** The stored customer after `findByIdAndUpdate(id, data)`: the four fields and the
      role (`role || 'customer'`) are replaced, the id and password hash stay. */
  function Edited(c: Customer, f: CustomerForm): (r: Customer)
    requires Filled(f)
    ensures r.id == c.id && r.password == c.password
    ensures r.fullName == f.fullName.value && r.email == f.email.value && r.phone == f.phone.value && r.address == f.address.value
    ensures r.role == (if Present(f.role) then f.role.value else DEFAULT_CUSTOMER_ROLE)
  {
    c.(fullName := f.fullName.value, email := f.email.value, phone := f.phone.value, address := f.address.value,
       role := if Present(f.role) then f.role.value else DEFAULT_CUSTOMER_ROLE)
  }

  /** `update`: the form again with the first problem, or the edited store and a redirect
      to the customer's page. An unknown id changes nothing but still redirects. */
  function Update(cs: seq<Customer>, id: string, f: CustomerForm): (r: (UserPages.Outcome, seq<Customer>))
    ensures UpdateProblem(cs, id, f).Some? ==> r == (UserPages.FormError(UpdateProblem(cs, id, f).value), cs)
    ensures UpdateProblem(cs, id, f).None? ==>
              && r.0 == UserPages.Redirected(Redirect("/admin/customers/detail/" + id, FlashSuccess("Cập nhật khách hàng thành công!")))
              && |r.1| == |cs|
              && (forall i :: 0 <= i < |cs| && cs[i].id != id ==> r.1[i] == cs[i])
              && (CustomerById(cs, Some(id)).None? ==> r.1 == cs)
              && (CustomerById(cs, Some(id)).Some? ==> CustomerById(r.1, Some(id)) == Some(Edited(CustomerById(cs, Some(id)).value, f)))
  {
    match UpdateProblem(cs, id, f)
    case Some(m) => (UserPages.FormError(m), cs)
    case None =>
      var done := UserPages.Redirected(Redirect("/admin/customers/detail/" + id, FlashSuccess("Cập nhật khách hàng thành công!")));
      match FirstIndex(cs, (c: Customer) => c.id == id)
      case None => (done, cs)
      case Some(k) =>
        var after := cs[k := Edited(cs[k], f)];
        assert forall j :: 0 <= j < k ==> after[j] == cs[j];
        FirstAt(after, (c: Customer) => c.id == id, k);
        (done, after)
  }

  /** `delete`: the customer goes, answering whether one was found. */
  function Delete(cs: seq<Customer>, id: string): (r: (Redirect, seq<Customer>))
    ensures CustomerById(cs, Some(id)).None? <==> r.1 == cs
    ensures CustomerById(cs, Some(id)).Some? ==> |r.1| == |cs| - 1
    ensures forall c :: c in r.1 ==> c in cs
    ensures forall c :: c in cs && c.id != id ==> c in r.1
    ensures r.0 == Redirect(CUSTOMERS_PATH, if CustomerById(cs, Some(id)).Some? then FlashSuccess("Xóa khách hàng thành công!") else FlashError(CUSTOMER_MISSING))
  {
    match FirstIndex(cs, (c: Customer) => c.id == id)
    case None => (Redirect(CUSTOMERS_PATH, FlashError(CUSTOMER_MISSING)), cs)
    case Some(k) =>
      var r := cs[..k] + cs[k + 1..];
      assert |r| != |cs|;
      assert forall c :: c in cs && c.id != id ==> c in r by {
        forall c | c in cs && c.id != id ensures c in r {
          var i :| 0 <= i < |cs| && cs[i] == c;
          if i < k { assert r[i] == c; } else { assert r[i - 1] == c; }
        }
      }
      (Redirect(CUSTOMERS_PATH, FlashSuccess("Xóa khách hàng thành công!")), r)
  }

  // ----- Properties -----

  /** Email is checked before phone: a form whose email and phone both belong to others
      is answered with the email message. */
  lemma EmailBeforePhone(cs: seq<Customer>, id: string, f: CustomerForm)
    requires Filled(f) && EmailTakenByOther(cs, f.email.value, id) && PhoneTakenByOther(cs, f.phone.value, id)
    ensures Update(cs, id, f).0 == UserPages.FormError(EMAIL_TAKEN)
  {
  }

  /** An edit never touches the stored password hash, and leaving the role out makes the
      customer a plain `customer`, an admin included. */
  lemma EditKeepsPassword(cs: seq<Customer>, id: string, f: CustomerForm)
    requires UpdateProblem(cs, id, f).None? && CustomerById(cs, Some(id)).Some? && !Present(f.role)
    ensures var c := CustomerById(Update(cs, id, f).1, Some(id)).value;
            c.password == CustomerById(cs, Some(id)).value.password && c.role == DEFAULT_CUSTOMER_ROLE
  {
  }

  /** Edits keep emails, phones and ids unique across customers. */
  lemma UpdateKeepsUnique(cs: seq<Customer>, id: string, f: CustomerForm)
    requires UniqueEmails(cs) && UniquePhones(cs) && UniqueIds(cs)
    ensures var after := Update(cs, id, f).1;
            UniqueEmails(after) && UniquePhones(after) && UniqueIds(after)
  {
    var after := Update(cs, id, f).1;
    if after != cs {
      forall i, j | 0 <= i < j < |after|
        ensures after[i].email != after[j].email && after[i].phone != after[j].phone && after[i].id != after[j].id
      {
        assert cs[i].id != cs[j].id;
      }
    }
  }

  /** A customer can keep their own email and phone: only other customers' values count. */
  lemma OwnContactAllowed(cs: seq<Customer>, id: string, f: CustomerForm)
    requires UniqueEmails(cs) && UniquePhones(cs) && Filled(f)
    requires CustomerById(cs, Some(id)).Some?
    requires f.email.value == CustomerById(cs, Some(id)).value.email && f.phone.value == CustomerById(cs, Some(id)).value.phone
    ensures UpdateProblem(cs, id, f).None?
  {
  }

  /** Deleting an unknown id changes nothing, and after a delete the id is gone when ids
      are unique. */
  lemma DeleteRemoves(cs: seq<Customer>, id: string)
    requires UniqueIds(cs)
    ensures CustomerById(Delete(cs, id).1, Some(id)).None?
    ensures Delete(Delete(cs, id).1, id) == (Redirect(CUSTOMERS_PATH, FlashError(CUSTOMER_MISSING)), Delete(cs, id).1)
  {
  }
}
