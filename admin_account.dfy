/**
 * The account page of the admin area: two small forms that post to the `admin-management`
 * endpoint, one to change the signed-in admin's own password and one to create another admin.
 *
 * The page is a class whose fields are its React state. Each handler is a method that takes
 * the outcomes of what it awaits (the current session's access token, the endpoint's parsed
 * JSON answer) and returns the request it sent, if any, and the notice it showed. A handler
 * whose awaited call throws does not reach its last line: its busy flag stays set and the
 * fields keep their values.
 */
module AdminAccount {
  import opened Wrappers
  import opened JsText
  import opened JsValues
  import AdminManagement

  const PasswordTooShort := "Password minimal 6 karakter"
  const PasswordMismatch := "Password tidak cocok"
  const PasswordChanged := "Password berhasil diubah"
  const EmailAndPasswordRequired := "Email dan password wajib diisi"
  const AdminCreated := "Admin baru berhasil dibuat"
  const MinPasswordLength := 6

  /** A POST to the endpoint: its `Authorization` header and its JSON object body. */
  datatype EdgeCall = EdgeCall(authorization: string, body: map<string, string>)

  /** The toast a handler shows, if any. An error toast shows whatever `result.error` held. */
  datatype Notice = NoNotice | ErrorNotice(message: JsValue) | SuccessNotice(text: string)

  /** `Bearer ${session?.access_token}`: without a session the token interpolates as `undefined`. */
  function Bearer(accessToken: Option<string>): (h: string)
    ensures |h| >= 7 && h[..7] == "Bearer "
  {
    "Bearer " + (match accessToken case Some(t) => t case None => "undefined")
  }

  /** The header carries the token unchanged, so the endpoint sees the session's own credential. */
  lemma BearerCarriesToken(t1: string, t2: string)
    ensures Bearer(Some(t1)) == Bearer(Some(t2)) <==> t1 == t2
  {
    if Bearer(Some(t1)) == Bearer(Some(t2)) {
      assert t1 == Bearer(Some(t1))[7..];
      assert t2 == Bearer(Some(t2))[7..];
    }
  }

  /** The body as the endpoint parses it: an object of strings. */
  function BodyValue(body: map<string, string>): (v: JsValue)
    ensures v.JObj? && v.fields.Keys == body.Keys
    ensures forall k :: k in body ==> Get(v, k) == JStr(body[k])
  {
    JObj(map k | k in body :: JStr(body[k]))
  }

  /** `res.json()` answered a value on which `result.error` can be read (not `null` or `undefined`). */
  predicate Readable(reply: Outcome<JsValue>) {
    reply.Returned? && !reply.value.JNull? && !reply.value.JUndefined?
  }

  /** The endpoint's answer carries a truthy `error`. */
  predicate Failed(reply: Outcome<JsValue>)
    requires Readable(reply)
  {
    Truthy(Get(reply.value, "error"))
  }

  class AccountPage {
    var newPass: string
    var confirmPass: string
    var changingPass: bool
    var newEmail: string
    var newAdminPass: string
    var creating: bool

    constructor ()
      ensures newPass == "" && confirmPass == "" && !changingPass
      ensures newEmail == "" && newAdminPass == "" && !creating
    {
      newPass, confirmPass, changingPass := "", "", false;
      newEmail, newAdminPass, creating := "", "", false;
    }

    /**
     * `handleChangePassword`. A password shorter than six UTF-16 code units is refused first, then a
     * confirmation that differs; neither sends anything. Otherwise the page posts
     * `{action: "change_password", new_password}`; a truthy `error` in the answer is shown and
     * the fields are kept, any other answer clears both fields.
     */
    method ChangePassword(accessToken: Option<string>, reply: Outcome<JsValue>)
      returns (call: Option<EdgeCall>, notice: Notice)
      modifies this
      ensures JsLength(old(newPass)) < MinPasswordLength ==> call.None? && notice == ErrorNotice(JStr(PasswordTooShort))
      ensures JsLength(old(newPass)) >= MinPasswordLength && old(newPass) != old(confirmPass) ==>
        call.None? && notice == ErrorNotice(JStr(PasswordMismatch))
      ensures call.Some? <==> JsLength(old(newPass)) >= MinPasswordLength && old(newPass) == old(confirmPass)
      ensures call.Some? ==>
        call.value == EdgeCall(Bearer(accessToken), map["action" := "change_password", "new_password" := old(newPass)])
      ensures call.None? ==> changingPass == old(changingPass)
      ensures call.Some? ==> changingPass == !Readable(reply)
      ensures call.Some? && Readable(reply) && Failed(reply) ==> notice == ErrorNotice(Get(reply.value, "error"))
      ensures call.Some? && Readable(reply) && !Failed(reply) ==> notice == SuccessNotice(PasswordChanged)
      ensures call.Some? && !Readable(reply) ==> notice == NoNotice
      ensures if call.Some? && Readable(reply) && !Failed(reply) then newPass == "" && confirmPass == ""
              else newPass == old(newPass) && confirmPass == old(confirmPass)
      ensures newEmail == old(newEmail) && newAdminPass == old(newAdminPass) && creating == old(creating)
    {
      call, notice := None, NoNotice;
      if JsLength(newPass) < MinPasswordLength {
        notice := ErrorNotice(JStr(PasswordTooShort));
        return;
      }
      if newPass != confirmPass {
        notice := ErrorNotice(JStr(PasswordMismatch));
        return;
      }
      changingPass := true;
      call := Some(EdgeCall(Bearer(accessToken), map["action" := "change_password", "new_password" := newPass]));
      if !Readable(reply) {
        return;
      }
      var error := Get(reply.value, "error");
      if Truthy(error) {
        notice := ErrorNotice(error);
      } else {
        notice := SuccessNotice(PasswordChanged);
        newPass, confirmPass := "", "";
      }
      changingPass := false;
    }

    /**
     * `handleCreateAdmin`. An empty email or password sends nothing. Otherwise the page posts
     * `{action: "create_admin", email, password}`; a truthy `error` is shown and the fields are
     * kept, any other answer clears them. Neither field is trimmed.
     */
    method CreateAdmin(accessToken: Option<string>, reply: Outcome<JsValue>)
      returns (call: Option<EdgeCall>, notice: Notice)
      modifies this
      ensures call.None? <==> old(newEmail) == "" || old(newAdminPass) == ""
      ensures call.None? ==> notice == ErrorNotice(JStr(EmailAndPasswordRequired)) && creating == old(creating)
      ensures call.Some? ==>
        call.value == EdgeCall(Bearer(accessToken),
                               map["action" := "create_admin", "email" := old(newEmail), "password" := old(newAdminPass)])
      ensures call.Some? ==> creating == !Readable(reply)
      ensures call.Some? && Readable(reply) && Failed(reply) ==> notice == ErrorNotice(Get(reply.value, "error"))
      ensures call.Some? && Readable(reply) && !Failed(reply) ==> notice == SuccessNotice(AdminCreated)
      ensures call.Some? && !Readable(reply) ==> notice == NoNotice
      ensures if call.Some? && Readable(reply) && !Failed(reply) then newEmail == "" && newAdminPass == ""
              else newEmail == old(newEmail) && newAdminPass == old(newAdminPass)
      ensures newPass == old(newPass) && confirmPass == old(confirmPass) && changingPass == old(changingPass)
    {
      call, notice := None, NoNotice;
      if newEmail == "" || newAdminPass == "" {
        notice := ErrorNotice(JStr(EmailAndPasswordRequired));
        return;
      }
      creating := true;
      call := Some(EdgeCall(Bearer(accessToken),
                            map["action" := "create_admin", "email" := newEmail, "password" := newAdminPass]));
      if !Readable(reply) {
        return;
      }
      var error := Get(reply.value, "error");
      if Truthy(error) {
        notice := ErrorNotice(error);
      } else {
        notice := SuccessNotice(AdminCreated);
        newEmail, newAdminPass := "", "";
      }
      creating := false;
    }
  }

  // ---------------------------------------------------------------------------
  // The page's checks against the endpoint's
  // ---------------------------------------------------------------------------

  /** On string input the page's checks are exactly the endpoint's: a password is refused by
      one iff it is refused by the other, and so are empty credentials. */
  lemma ChecksAgreeWithEndpoint(password: string, email: string, adminPassword: string)
    ensures AdminManagement.PasswordRejected(JStr(password)) <==> JsLength(password) < MinPasswordLength
    ensures AdminManagement.PasswordAccepted(JStr(password)) <==> JsLength(password) >= MinPasswordLength
    ensures !Truthy(JStr(email)) || !Truthy(JStr(adminPassword)) <==> email == "" || adminPassword == ""
  {
  }

  /** A password change the page sends, once the endpoint lets the caller through, updates the
      caller's own account with exactly the typed password. */
  lemma SentPasswordReachesUpdate(newPassword: string, req: AdminManagement.Request, be: AdminManagement.Backend)
    requires JsLength(newPassword) >= MinPasswordLength
    requires AdminManagement.GatePassed(req, be)
    requires be.body == Returned(BodyValue(map["action" := "change_password", "new_password" := newPassword]))
    ensures var r := AdminManagement.Handle(req, be);
      r.steps == AdminManagement.GatePrefix(req, be) +
                 [AdminManagement.UpdateUserById(AdminManagement.Caller(req, be).id, JStr(newPassword))]
  {
    var body := map["action" := "change_password", "new_password" := newPassword];
    assert Get(BodyValue(body), "action") == JStr("change_password");
    assert Get(BodyValue(body), "new_password") == JStr(newPassword);
    AdminManagement.ChangePasswordUpdatesCaller(req, be);
  }

  /** An admin creation the page sends, once the endpoint lets the caller through, creates a
      confirmed account with exactly the typed email and password. */
  lemma SentAdminReachesCreate(email: string, password: string, req: AdminManagement.Request, be: AdminManagement.Backend)
    requires email != "" && password != ""
    requires AdminManagement.GatePassed(req, be)
    requires be.body == Returned(BodyValue(map["action" := "create_admin", "email" := email, "password" := password]))
    ensures var r := AdminManagement.Handle(req, be);
      var n := |AdminManagement.GatePrefix(req, be)|;
      |r.steps| > n && r.steps[..n + 1] ==
        AdminManagement.GatePrefix(req, be) + [AdminManagement.CreateUser(JStr(email), JStr(password), true)]
  {
    var body := map["action" := "create_admin", "email" := email, "password" := password];
    assert Get(BodyValue(body), "action") == JStr("create_admin");
    assert Get(BodyValue(body), "email") == JStr(email);
    assert Get(BodyValue(body), "password") == JStr(password);
  }
}
