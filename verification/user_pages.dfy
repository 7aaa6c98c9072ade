/** The back-office user forms of src/apps/controllers/web/user.js: creating, editing and
    deleting a user. A form either comes back with one error message or the handler
    redirects with a flash message. Users are a sequence in insertion order, as in
    `Principals`; `hash` stands for the bcrypt hash of the submitted password. */
module UserPages {
  import opened Js
  import opened Http
  import opened Principals
  import opened TokenRecords
  import opened TokenService

  const USERS_PATH: string := "/admin/users"
  const FILL_ALL: string := "Vui lòng điền đầy đủ thông tin"
  const CONFIRM_MISMATCH: string := "Mật khẩu xác nhận không khớp"
  const TOO_SHORT: string := "Mật khẩu phải có ít nhất 6 ký tự"
  const EMAIL_TAKEN: string := "Email đã tồn tại"
  const EMAIL_EMPTY: string := "Email không được để trống"
  const CREATE_FAILED: string := "Có lỗi xảy ra khi thêm thành viên"
  const USER_MISSING: string := "Không tìm thấy thành viên"
  /** The shortest password the forms accept, in UTF-16 code units. */
  const MIN_PASSWORD: nat := 6

  /** The fields of the add and edit forms. */
  datatype UserForm = UserForm(email: Option<string>, password: Option<string>,
                               confirmPassword: Option<string>, role: Option<string>)

  /** A form shown again with an error, or a redirect. */
  datatype Outcome = FormError(message: string) | Redirected(redirect: Redirect)

  predicate UniqueIds(us: seq<User>) {
    forall i, j :: 0 <= i < j < |us| ==> us[i].id != us[j].id
  }

  predicate UniqueEmails(us: seq<User>) {
    forall i, j :: 0 <= i < j < |us| ==> us[i].email != us[j].email
  }

  /** `UserModel.findOne({ email, _id: { $ne: id } })` finds someone. */
  predicate TakenByOther(us: seq<User>, email: string, id: string) {
    exists i :: 0 <= i < |us| && us[i].email == email && us[i].id != id
  }

  /** `role || 'member'` */
  function RoleOrMember(role: Option<string>): (r: string)
    ensures Present(role) ==> r == role.value
    ensures !Present(role) ==> r == DEFAULT_USER_ROLE
  {
    if Present(role) then role.value else DEFAULT_USER_ROLE
  }

  // ----- create -----

  /** The first check of `create` that the form fails: required fields, confirmation,
      length, then a free email. */
  function CreateProblem(us: seq<User>, f: UserForm): (p: Option<string>)
    ensures p.None? <==> && Present(f.email) && Present(f.password) && Present(f.confirmPassword)
                         && f.password == f.confirmPassword && Utf16Length(f.password.value) >= MIN_PASSWORD
                         && UserByEmail(us, f.email.value).None?
    ensures p.Some? ==> p.value in {FILL_ALL, CONFIRM_MISMATCH, TOO_SHORT, EMAIL_TAKEN}
    ensures !(Present(f.email) && Present(f.password) && Present(f.confirmPassword)) ==> p == Some(FILL_ALL)
  {
    if !Present(f.email) || !Present(f.password) || !Present(f.confirmPassword) then Some(FILL_ALL)
    else if f.password != f.confirmPassword then Some(CONFIRM_MISMATCH)
    else if Utf16Length(f.password.value) < MIN_PASSWORD then Some(TOO_SHORT)
    else if UserByEmail(us, f.email.value).Some? then Some(EMAIL_TAKEN)
    else None
  }

  /** `create`: the first problem, if any; otherwise the new user, unless the schema's role
      enum refuses the role (the catch shows a generic error). */
  function Create(us: seq<User>, f: UserForm, newId: string, hash: string): (r: (Outcome, seq<User>))
    ensures CreateProblem(us, f).Some? ==> r == (FormError(CreateProblem(us, f).value), us)
    ensures CreateProblem(us, f).None? && RoleOrMember(f.role) !in USER_ROLES ==> r == (FormError(CREATE_FAILED), us)
    ensures r.1 != us <==> CreateProblem(us, f).None? && RoleOrMember(f.role) in USER_ROLES
    ensures r.1 != us ==> && r.0 == Redirected(Redirect(USERS_PATH, FlashSuccess("Thêm thành viên thành công!")))
                          && r.1 == us + [User(newId, f.email.value, Some(hash), RoleOrMember(f.role))]
  {
    match CreateProblem(us, f)
    case Some(m) => (FormError(m), us)
    case None =>
      var role := RoleOrMember(f.role);
      if role !in USER_ROLES then (FormError(CREATE_FAILED), us)
      else
        var after := us + [User(newId, f.email.value, Some(hash), role)];
        assert |after| != |us|;
        (Redirected(Redirect(USERS_PATH, FlashSuccess("Thêm thành viên thành công!"))), after)
  }

  // ----- update -----

  /** `findByIdAndUpdate(id, data)` on the first user with the id: email and role always,
      the password hash only when one is given; no schema validator runs. An unknown id
      changes nothing. */
  function Patched(us: seq<User>, id: string, email: string, role: string, password: Option<string>): (r: seq<User>)
    ensures |r| == |us|
    ensures forall i :: 0 <= i < |us| && us[i].id != id ==> r[i] == us[i]
    ensures forall i :: 0 <= i < |us| && us[i].id == id ==>
              r[i] == us[i] || r[i] == User(id, email, if password.Some? then password else us[i].password, role)
    ensures UserById(us, Some(id)).None? ==> r == us
    ensures UserById(us, Some(id)).Some? ==>
              UserById(r, Some(id)) == Some(User(id, email, if password.Some? then password else UserById(us, Some(id)).value.password, role))
  {
    match FirstIndex(us, (u: User) => u.id == id)
    case None => us
    case Some(k) =>
      var u := us[k];
      var r := us[k := User(id, email, if password.Some? then password else u.password, role)];
      assert forall j :: 0 <= j < k ==> r[j] == us[j];
      FirstAt(r, (u: User) => u.id == id, k);
      r
  }

  /** `update`: a missing email, an email another user has, then (only when a new
      password is given) the confirmation and length; the role falls back to `member`. */
  function Update(us: seq<User>, id: string, f: UserForm, hash: string): (r: (Outcome, seq<User>))
    ensures !Present(f.email) ==> r == (FormError(EMAIL_EMPTY), us)
    ensures Present(f.email) && TakenByOther(us, f.email.value, id) ==> r == (FormError(EMAIL_TAKEN), us)
    ensures r.0.Redirected? <==> && Present(f.email) && !TakenByOther(us, f.email.value, id)
                                 && (Present(f.password) ==> f.password == f.confirmPassword
                                                             && Utf16Length(f.password.value) >= MIN_PASSWORD)
    ensures r.0.FormError? ==> r.1 == us
    ensures r.0.Redirected? ==>
              && r.0.redirect == Redirect("/admin/users/detail/" + id, FlashSuccess("Cập nhật thành viên thành công!"))
              && r.1 == Patched(us, id, f.email.value, RoleOrMember(f.role), if Present(f.password) then Some(hash) else None)
  {
    if !Present(f.email) then (FormError(EMAIL_EMPTY), us)
    else if TakenByOther(us, f.email.value, id) then (FormError(EMAIL_TAKEN), us)
    else if Present(f.password) && f.password != f.confirmPassword then (FormError(CONFIRM_MISMATCH), us)
    else if Present(f.password) && Utf16Length(f.password.value) < MIN_PASSWORD then (FormError(TOO_SHORT), us)
    else
      (Redirected(Redirect("/admin/users/detail/" + id, FlashSuccess("Cập nhật thành viên thành công!"))),
       Patched(us, id, f.email.value, RoleOrMember(f.role), if Present(f.password) then Some(hash) else None))
  }

  // ----- delete -----

  /** The users without the first one holding the id. */
  function Without(us: seq<User>, id: string): (r: seq<User>)
    ensures UserById(us, Some(id)).None? ==> r == us
    ensures UserById(us, Some(id)).Some? ==> |r| == |us| - 1
    ensures forall u :: u in r ==> u in us
    ensures forall u :: u in us && u.id != id ==> u in r
  {
    match FirstIndex(us, (u: User) => u.id == id)
    case None => us
    case Some(k) =>
      var r := us[..k] + us[k + 1..];
      assert forall u :: u in us && u.id != id ==> u in r by {
        forall u | u in us && u.id != id ensures u in r {
          var i :| 0 <= i < |us| && us[i] == u;
          if i < k { assert r[i] == u; } else { assert r[i - 1] == u; }
        }
      }
      r
  }

  /** `delete`: revoke and drop the user's token record (a missing record's error is
      swallowed), then delete the user, answering whether one was found. */
  function Delete(us: seq<User>, tokens: Tokens, id: string, nowMs: nat): (r: (Redirect, seq<User>, Tokens))
    ensures r.2 == DeleteUserToken(tokens, id, nowMs).state
    ensures FindRecord(tokens.records, id).None? ==> r.2 == tokens
    ensures r.1 == Without(us, id)
    ensures r.0 == Redirect(USERS_PATH, if UserById(us, Some(id)).Some? then FlashSuccess("Xóa thành viên thành công!") else FlashError(USER_MISSING))
  {
    var st := DeleteUserToken(tokens, id, nowMs).state;
    if UserById(us, Some(id)).None? then (Redirect(USERS_PATH, FlashError(USER_MISSING)), us, st)
    else (Redirect(USERS_PATH, FlashSuccess("Xóa thành viên thành công!")), Without(us, id), st)
  }

  // ----- Properties -----

  /** The checks of `create` report the earliest failure: a mismatched confirmation is
      reported however short the password and whoever holds the email. */
  lemma CreateChecksInOrder(us: seq<User>, f: UserForm)
    requires Present(f.email) && Present(f.password) && Present(f.confirmPassword)
    ensures f.password != f.confirmPassword ==> CreateProblem(us, f) == Some(CONFIRM_MISMATCH)
    ensures f.password == f.confirmPassword && Utf16Length(f.password.value) < MIN_PASSWORD ==> CreateProblem(us, f) == Some(TOO_SHORT)
  {
  }

  /** Creating keeps emails and ids unique, and the new user can be found by email with
      the role given, or `member`. */
  lemma CreateKeepsUnique(us: seq<User>, f: UserForm, newId: string, hash: string)
    requires UniqueEmails(us) && UniqueIds(us)
    requires forall i :: 0 <= i < |us| ==> us[i].id != newId
    ensures var after := Create(us, f, newId, hash).1;
            && UniqueEmails(after) && UniqueIds(after)
            && (after != us ==> UserByEmail(after, f.email.value) == Some(User(newId, f.email.value, Some(hash), RoleOrMember(f.role))))
  {
    var after := Create(us, f, newId, hash).1;
    if after != us {
      var n := User(newId, f.email.value, Some(hash), RoleOrMember(f.role));
      assert forall i :: 0 <= i < |us| ==> us[i].email != n.email;
      assert after[|us|] == n;
    }
  }

  /** The length rule counts UTF-16 code units: three characters outside the Basic
      Multilingual Plane make a long enough password. */
  lemma LengthInCodeUnits(us: seq<User>, f: UserForm, c: char)
    requires c as int > 0xFFFF
    requires Present(f.email) && f.password == Some([c, c, c]) && f.confirmPassword == f.password
    ensures CreateProblem(us, f) != Some(TOO_SHORT)
  {
    assert Utf16Length([c]) == 2;
    assert [c, c][1..] == [c];
    assert Utf16Length([c, c]) == 4;
    assert [c, c, c][1..] == [c, c];
  }

  /** Editing with the role left out turns an admin into a member, and a blank password
      keeps the stored one whatever the confirmation says. */
  lemma OmittedFieldsOnUpdate(us: seq<User>, id: string, email: string, confirm: Option<string>, hash: string)
    requires email != [] && !TakenByOther(us, email, id) && UserById(us, Some(id)).Some?
    ensures var after := Update(us, id, UserForm(Some(email), None, confirm, None), hash);
            && after.0.Redirected?
            && UserById(after.1, Some(id)) == Some(User(id, email, UserById(us, Some(id)).value.password, DEFAULT_USER_ROLE))
  {
  }

  /** A user may keep their own email; the uniqueness check only looks at other users. */
  lemma OwnEmailAllowed(us: seq<User>, id: string, f: UserForm, hash: string)
    requires UniqueEmails(us) && UserById(us, Some(id)).Some? && f.email == Some(UserById(us, Some(id)).value.email)
    requires f.email.value != []
    ensures Update(us, id, f, hash).0 != FormError(EMAIL_TAKEN)
  {
  }

  /** Updating keeps emails and ids unique. */
  lemma UpdateKeepsUnique(us: seq<User>, id: string, f: UserForm, hash: string)
    requires UniqueEmails(us) && UniqueIds(us)
    ensures var after := Update(us, id, f, hash).1;
            UniqueEmails(after) && UniqueIds(after)
  {
    var after := Update(us, id, f, hash).1;
    if after != us {
      forall i, j | 0 <= i < j < |after| ensures after[i].email != after[j].email && after[i].id != after[j].id {
        assert us[i].id != us[j].id;
      }
    }
  }

  /** The role enum guards `create` only: an edit stores any role text, since the update
      runs no schema validators. */
  lemma UpdateSkipsRoleEnum(us: seq<User>, id: string, email: string, role: string, hash: string)
    requires email != [] && role != [] && role !in USER_ROLES
    requires !TakenByOther(us, email, id) && UserById(us, Some(id)).Some?
    ensures UserById(Update(us, id, UserForm(Some(email), None, None, Some(role)), hash).1, Some(id)).value.role == role
    ensures Create(us, UserForm(Some(email), Some("secret"), Some("secret"), Some(role)), id, hash).1 == us
  {
  }

  /** Deleting a signed-in user removes the user and their token record and revokes the
      record's tokens for as long as they would verify; with no record the user is
      deleted all the same. */
  lemma DeleteEndsSessions(us: seq<User>, tokens: Tokens, id: string, nowMs: nat, later: nat, key: Codec.Key)
    requires UniqueIds(us) && Consistent(tokens) && nowMs <= later
    ensures var r := Delete(us, tokens, id, nowMs);
            && UserById(r.1, Some(id)).None?
            && FindRecord(r.2.records, id).None?
            && Consistent(r.2)
            && (FindRecord(tokens.records, id).Some? ==>
                  var prev := FindRecord(tokens.records, id).value;
                  (Codec.Verify(prev.accessToken, key, later).Valid? ==> Revocation.IsRevoked(r.2.revoked, prev.accessToken, later)))
  {
    var r := Delete(us, tokens, id, nowMs);
    if FindRecord(tokens.records, id).Some? {
      DeleteEffect(tokens, id, nowMs, NO_TOKEN_USER, id, later, key);
    }
  }
}
