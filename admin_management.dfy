/**
 * The privileged-action endpoint `admin-management`: a request handler that answers CORS
 * preflight, authenticates the caller from the `Authorization` header, re-checks the
 * caller's admin role with the caller's own credential, and only then reads the JSON body and
 * dispatches on its `action` to `change_password` or `create_admin`, which use the elevated
 * service credential.
 *
 * Every awaited backend call is replaced by its outcome, supplied in a `Backend` record. The
 * handler is a function from a request and those outcomes to the HTTP response and the
 * sequence of steps it attempted, so that "nothing is mutated before the gate passes" is a
 * statement about that sequence.
 */
module AdminManagement {
  import opened Wrappers
  import opened JsValues

  /** The headers attached to every response, the preflight answer included. */
  const CorsHeaders: map<string, string> :=
    map["Access-Control-Allow-Origin" := "*",
        "Access-Control-Allow-Headers" := "authorization, x-client-info, apikey, content-type"]

  const Unauthorized := "Unauthorized"
  const Forbidden := "Forbidden"
  const PasswordTooShort := "Password minimal 6 karakter"
  const EmailAndPasswordRequired := "Email dan password wajib diisi"
  const UnknownAction := "Unknown action"
  const MinPasswordLength := 6
  const AdminRole := "admin"

  /** The parts of the incoming request the handler looks at before it reads the body. */
  datatype Request = Request(httpMethod: string, authorization: Option<string>)

  /** An authenticated identity as returned by the session-verification call. */
  datatype User = User(id: string, email: string)

  /** `createUser` returns either the new account or an error object with a message. */
  datatype CreateResult = Created(userId: string) | CreateFailed(message: string)

  /**
   * The outcomes of the awaited calls of one invocation. `updateUser` and `insertRole` give
   * the message of the returned error object, if any. `nullBodyError` is the message of the
   * TypeError JavaScript raises when a body that parsed to `null` is destructured, and
   * `conversionError` that of the TypeError raised when `new_password.length` is an object that
   * cannot be converted to a number.
   */
  datatype Backend = Backend(
    getUser: Outcome<Option<User>>,
    hasRole: Outcome<JsValue>,
    body: Outcome<JsValue>,
    nullBodyError: string,
    conversionError: string,
    updateUser: Outcome<Option<string>>,
    createUser: Outcome<CreateResult>,
    insertRole: Outcome<Option<string>>)

  /** A step the handler attempts, in order. The last three change accounts or roles. */
  datatype Step =
    | GetUser(authorization: string)
    | HasRole(userId: string, role: string)
    | ReadBody
    | UpdateUserById(userId: string, password: JsValue)
    | CreateUser(email: JsValue, password: JsValue, emailConfirm: bool)
    | InsertUserRole(userId: string, role: string)
  {
    predicate IsMutation() {
      UpdateUserById? || CreateUser? || InsertUserRole?
    }
  }

  datatype Body = NoBody | ErrorBody(error: string) | SuccessBody | CreatedBody(userId: string)

  datatype Response = Response(status: int, body: Body, headers: map<string, string>)

  datatype Reply = Reply(response: Response, steps: seq<Step>)

  function Respond(status: int, body: Body): Response {
    Response(status, body, CorsHeaders)
  }

  predicate HasMutation(steps: seq<Step>) {
    exists i :: 0 <= i < |steps| && steps[i].IsMutation()
  }

  /** `!authHeader` is false: the header is present and not the empty string. */
  predicate AuthorizationGiven(req: Request) {
    req.authorization.Some? && req.authorization.value != []
  }

  /** The caller's token resolved to a user. */
  predicate Authenticated(req: Request, be: Backend) {
    req.httpMethod != "OPTIONS" && AuthorizationGiven(req) &&
    be.getUser.Returned? && be.getUser.value.Some?
  }

  /** The caller is authenticated and the role check answered with a truthy value. */
  predicate GatePassed(req: Request, be: Backend) {
    Authenticated(req, be) && be.hasRole.Returned? && Truthy(be.hasRole.value)
  }

  function Caller(req: Request, be: Backend): User
    requires Authenticated(req, be)
  {
    be.getUser.value.value
  }

  /** The three steps every gated action starts with. */
  function GatePrefix(req: Request, be: Backend): seq<Step>
    requires Authenticated(req, be)
  {
    [GetUser(req.authorization.value), HasRole(Caller(req, be).id, AdminRole), ReadBody]
  }

  /** The parsed body had `action` equal to `name`. */
  predicate ActionIs(be: Backend, name: string) {
    be.body.Returned? && Get(be.body.value, "action") == JStr(name)
  }

  /** The request handler. */
  function Handle(req: Request, be: Backend): (r: Reply)
    ensures r.response.headers == CorsHeaders
    ensures r.response.status in {200, 400, 401, 403, 500}
    ensures r.response.body.NoBody? <==> req.httpMethod == "OPTIONS"
    ensures req.httpMethod == "OPTIONS" ==> r.steps == [] && r.response.status == 200
    ensures HasMutation(r.steps) ==> GatePassed(req, be) && |r.steps| > 3 && r.steps[..3] == GatePrefix(req, be)
  {
    if req.httpMethod == "OPTIONS" then
      Reply(Response(200, NoBody, CorsHeaders), [])
    else if !AuthorizationGiven(req) then
      Reply(Respond(401, ErrorBody(Unauthorized)), [])
    else
      var steps := [GetUser(req.authorization.value)];
      match be.getUser
      case Threw(m) => Reply(Respond(500, ErrorBody(m)), steps)
      case Returned(None) => Reply(Respond(401, ErrorBody(Unauthorized)), steps)
      case Returned(Some(user)) =>
        var steps := steps + [HasRole(user.id, AdminRole)];
        match be.hasRole
        case Threw(m) => Reply(Respond(500, ErrorBody(m)), steps)
        case Returned(isAdmin) =>
          if !Truthy(isAdmin) then Reply(Respond(403, ErrorBody(Forbidden)), steps)
          else
            var steps := steps + [ReadBody];
            assert steps == GatePrefix(req, be);
            match be.body
            case Threw(m) => Reply(Respond(500, ErrorBody(m)), steps)
            case Returned(body) =>
              if body.JNull? || body.JUndefined? then Reply(Respond(500, ErrorBody(be.nullBodyError)), steps)
              else Dispatch(user, body, be, steps)
  }

  /** The branch on `action`, after the gate. */
  function Dispatch(user: User, body: JsValue, be: Backend, steps: seq<Step>): (r: Reply)
    ensures r.response.headers == CorsHeaders
    ensures r.response.status in {200, 400, 500}
    ensures |r.steps| >= |steps| && r.steps[..|steps|] == steps
    ensures forall i :: |steps| <= i < |r.steps| ==> r.steps[i].IsMutation()
    ensures forall i :: |steps| <= i < |r.steps| && r.steps[i].UpdateUserById? ==> r.steps[i].userId == user.id
  {
    var action := Get(body, "action");
    if action == JStr("change_password") then
      ChangePassword(user, Get(body, "new_password"), be, steps)
    else if action == JStr("create_admin") then
      CreateAdmin(Get(body, "email"), Get(body, "password"), be, steps)
    else
      Reply(Respond(400, ErrorBody(UnknownAction)), steps)
  }

  /** `!new_password || new_password.length < 6`: whether the password is refused, or the
      exception the comparison throws. The length is not read for a falsy password. */
  function PasswordCheck(newPassword: JsValue): (c: Comparison)
    ensures !Truthy(newPassword) ==> c == Compared(true)
    ensures Truthy(newPassword) ==> c == LengthBelow(newPassword, MinPasswordLength)
  {
    if !Truthy(newPassword) then Compared(true) else LengthBelow(newPassword, MinPasswordLength)
  }

  predicate PasswordRejected(newPassword: JsValue) {
    PasswordCheck(newPassword) == Compared(true)
  }

  predicate PasswordAccepted(newPassword: JsValue) {
    PasswordCheck(newPassword) == Compared(false)
  }

  function ChangePassword(user: User, newPassword: JsValue, be: Backend, steps: seq<Step>): (r: Reply)
    ensures r.response.headers == CorsHeaders
    ensures PasswordRejected(newPassword) ==> r == Reply(Respond(400, ErrorBody(PasswordTooShort)), steps)
    ensures PasswordCheck(newPassword).ComparisonThrows? ==> r == Reply(Respond(500, ErrorBody(be.conversionError)), steps)
    ensures PasswordAccepted(newPassword) ==> r.steps == steps + [UpdateUserById(user.id, newPassword)]
  {
    match PasswordCheck(newPassword)
    case ComparisonThrows => Reply(Respond(500, ErrorBody(be.conversionError)), steps)
    case Compared(true) => Reply(Respond(400, ErrorBody(PasswordTooShort)), steps)
    case Compared(false) =>
      var steps := steps + [UpdateUserById(user.id, newPassword)];
      match be.updateUser
      case Threw(m) => Reply(Respond(500, ErrorBody(m)), steps)
      case Returned(Some(message)) => Reply(Respond(400, ErrorBody(message)), steps)
      case Returned(None) => Reply(Respond(200, SuccessBody), steps)
  }

  function CreateAdmin(email: JsValue, password: JsValue, be: Backend, steps: seq<Step>): (r: Reply)
    ensures r.response.headers == CorsHeaders
    ensures !Truthy(email) || !Truthy(password) ==> r == Reply(Respond(400, ErrorBody(EmailAndPasswordRequired)), steps)
    ensures Truthy(email) && Truthy(password) ==>
      |r.steps| > |steps| && r.steps[..|steps| + 1] == steps + [CreateUser(email, password, true)]
    ensures |r.steps| >= |steps| && r.steps[..|steps|] == steps
    ensures HasRoleInsert(r.steps[|steps|..]) ==>
      be.createUser.Returned? && be.createUser.value.Created? &&
      r.steps == steps + [CreateUser(email, password, true), InsertUserRole(be.createUser.value.userId, AdminRole)]
  {
    if !Truthy(email) || !Truthy(password) then
      Reply(Respond(400, ErrorBody(EmailAndPasswordRequired)), steps)
    else
      var steps := steps + [CreateUser(email, password, true)];
      match be.createUser
      case Threw(m) => Reply(Respond(500, ErrorBody(m)), steps)
      case Returned(CreateFailed(message)) => Reply(Respond(400, ErrorBody(message)), steps)
      case Returned(Created(id)) =>
        var steps := steps + [InsertUserRole(id, AdminRole)];
        match be.insertRole
        case Threw(m) => Reply(Respond(500, ErrorBody(m)), steps)
        case Returned(Some(message)) => Reply(Respond(400, ErrorBody(message)), steps)
        case Returned(None) => Reply(Respond(200, CreatedBody(id)), steps)
  }

  predicate HasRoleInsert(steps: seq<Step>) {
    exists i :: 0 <= i < |steps| && steps[i].InsertUserRole?
  }

  // ---------------------------------------------------------------------------
  // Properties of the handler
  // ---------------------------------------------------------------------------

  /** 401 answers exactly a request without a usable `Authorization` header and one whose
      token resolves to no user. */
  lemma UnauthorizedIff(req: Request, be: Backend)
    ensures Handle(req, be).response.status == 401 <==>
      req.httpMethod != "OPTIONS" && (!AuthorizationGiven(req) || (be.getUser.Returned? && be.getUser.value.None?))
  {
  }

  /** 403 answers exactly an authenticated caller whose role check came back falsy. */
  lemma ForbiddenIff(req: Request, be: Backend)
    ensures Handle(req, be).response.status == 403 <==>
      Authenticated(req, be) && be.hasRole.Returned? && !Truthy(be.hasRole.value)
  {
  }

  /** A 401 or 403 carries an error and follows no mutation; the body is read only once the
      gate has passed. */
  lemma GateBeforeBody(req: Request, be: Backend)
    ensures var r := Handle(req, be);
      && (r.response.status in {401, 403} ==> r.response.body.ErrorBody? && !HasMutation(r.steps))
      && (ReadBody in r.steps ==> GatePassed(req, be))
  {
    var r := Handle(req, be);
    if r.response.status in {401, 403} {
      UnauthorizedIff(req, be);
      ForbiddenIff(req, be);
    }
  }

  /** Every password update targets the authenticated caller's own id. */
  lemma UpdateTargetsCaller(req: Request, be: Backend)
    ensures var r := Handle(req, be);
      forall i :: 0 <= i < |r.steps| && r.steps[i].UpdateUserById? ==>
        Authenticated(req, be) && r.steps[i].userId == Caller(req, be).id
  {
  }

  /** A preflight request is answered the same way whatever its headers and whatever the
      backend would have answered: no header is read and no call is made. */
  lemma PreflightIndependent(req1: Request, be1: Backend, req2: Request, be2: Backend)
    requires req1.httpMethod == "OPTIONS" && req2.httpMethod == "OPTIONS"
    ensures Handle(req1, be1) == Handle(req2, be2) == Reply(Response(200, NoBody, CorsHeaders), [])
  {
  }

  /** No usable `Authorization` header: 401 before any call. */
  lemma MissingHeaderUnauthorized(req: Request, be: Backend)
    requires req.httpMethod != "OPTIONS" && !AuthorizationGiven(req)
    ensures Handle(req, be) == Reply(Respond(401, ErrorBody(Unauthorized)), [])
  {
  }

  /** A header that resolves to no user: 401 after the one verification call. */
  lemma UnknownTokenUnauthorized(req: Request, be: Backend)
    requires req.httpMethod != "OPTIONS" && AuthorizationGiven(req) && be.getUser == Returned(None)
    ensures Handle(req, be) == Reply(Respond(401, ErrorBody(Unauthorized)), [GetUser(req.authorization.value)])
  {
  }

  /** A resolved user whose role check is falsy: 403, before the body is read and before any
      mutation. */
  lemma NonAdminForbidden(req: Request, be: Backend)
    requires Authenticated(req, be) && be.hasRole.Returned? && !Truthy(be.hasRole.value)
    ensures Handle(req, be) ==
      Reply(Respond(403, ErrorBody(Forbidden)), [GetUser(req.authorization.value), HasRole(Caller(req, be).id, AdminRole)])
  {
  }

  /** The parsed body that `Dispatch` receives. */
  predicate BodyDispatched(req: Request, be: Backend) {
    GatePassed(req, be) && be.body.Returned? && !be.body.value.JNull? && !be.body.value.JUndefined?
  }

  /** `change_password` with a missing or short `new_password`: 400 and no update call. */
  lemma ShortPasswordRejected(req: Request, be: Backend)
    requires BodyDispatched(req, be) && ActionIs(be, "change_password")
    requires PasswordRejected(Get(be.body.value, "new_password"))
    ensures Handle(req, be) == Reply(Respond(400, ErrorBody(PasswordTooShort)), GatePrefix(req, be))
  {
  }

  /** A `new_password` object whose `length` is a decimal string below 6 is refused like a short
      password: the comparison converts the string to its number. */
  lemma NumericStringLengthRejected(req: Request, be: Backend, digits: string)
    requires BodyDispatched(req, be) && ActionIs(be, "change_password")
    requires Get(be.body.value, "new_password") == JObj(map["length" := JStr(digits)])
    requires digits != [] && AllDigits(digits, 10) && DigitsValue(digits, 10) < MinPasswordLength
    ensures Handle(req, be) == Reply(Respond(400, ErrorBody(PasswordTooShort)), GatePrefix(req, be))
  {
    DecimalDigitsNumber(digits);
  }

  /** `change_password` with an acceptable password updates the caller's own account and
      reports the upstream answer: its error message with 400, or `{success: true}`. */
  lemma ChangePasswordUpdatesCaller(req: Request, be: Backend)
    requires BodyDispatched(req, be) && ActionIs(be, "change_password")
    requires PasswordAccepted(Get(be.body.value, "new_password"))
    ensures var r := Handle(req, be);
      && r.steps == GatePrefix(req, be) + [UpdateUserById(Caller(req, be).id, Get(be.body.value, "new_password"))]
      && (be.updateUser.Returned? && be.updateUser.value.Some? ==>
            r.response == Respond(400, ErrorBody(be.updateUser.value.value)))
      && (be.updateUser == Returned(None) ==> r.response == Respond(200, SuccessBody))
  {
  }

  /** A `user_id` supplied in the body has no influence on `change_password`. */
  lemma ChangePasswordIgnoresUserId(req: Request, be: Backend, fields: map<string, JsValue>, target: JsValue)
    requires "action" in fields && fields["action"] == JStr("change_password")
    ensures Handle(req, be.(body := Returned(JObj(fields["user_id" := target])))) ==
            Handle(req, be.(body := Returned(JObj(fields))))
  {
    var withId := be.(body := Returned(JObj(fields["user_id" := target])));
    var without := be.(body := Returned(JObj(fields)));
    assert Get(withId.body.value, "action") == JStr("change_password");
    assert Get(withId.body.value, "new_password") == Get(without.body.value, "new_password");
  }

  /** `create_admin` with a falsy email or password: 400 before the account-creation call. */
  lemma CreateAdminRequiresCredentials(req: Request, be: Backend)
    requires BodyDispatched(req, be) && ActionIs(be, "create_admin")
    requires !Truthy(Get(be.body.value, "email")) || !Truthy(Get(be.body.value, "password"))
    ensures Handle(req, be) == Reply(Respond(400, ErrorBody(EmailAndPasswordRequired)), GatePrefix(req, be))
  {
  }

  /** `create_admin` with both fields present: the account is created pre-confirmed; a creation
      error is reported with 400 and no role is inserted; otherwise the admin role is inserted
      for the new account, a role error is reported with 400 although the account now exists
      (nothing is rolled back), and success returns the new account's id. */
  lemma CreateAdminSequence(req: Request, be: Backend)
    requires BodyDispatched(req, be) && ActionIs(be, "create_admin")
    requires Truthy(Get(be.body.value, "email")) && Truthy(Get(be.body.value, "password"))
    ensures var r := Handle(req, be);
      var create := CreateUser(Get(be.body.value, "email"), Get(be.body.value, "password"), true);
      && (be.createUser.Returned? && be.createUser.value.CreateFailed? ==>
            r == Reply(Respond(400, ErrorBody(be.createUser.value.message)), GatePrefix(req, be) + [create]))
      && (be.createUser.Returned? && be.createUser.value.Created? ==>
            var id := be.createUser.value.userId;
            && r.steps == GatePrefix(req, be) + [create, InsertUserRole(id, AdminRole)]
            && (be.insertRole.Returned? && be.insertRole.value.Some? ==>
                  r.response == Respond(400, ErrorBody(be.insertRole.value.value)))
            && (be.insertRole == Returned(None) ==> r.response == Respond(200, CreatedBody(id))))
  {
  }

  /** Any other action: 400 `Unknown action`, and nothing beyond the gate is attempted. */
  lemma OtherActionUnknown(req: Request, be: Backend)
    requires BodyDispatched(req, be) && !ActionIs(be, "change_password") && !ActionIs(be, "create_admin")
    ensures Handle(req, be) == Reply(Respond(400, ErrorBody(UnknownAction)), GatePrefix(req, be))
  {
  }

  /** An exception thrown by an awaited call becomes a 500 carrying the exception's message. */
  lemma ExceptionsBecome500(req: Request, be: Backend, m: string)
    requires req.httpMethod != "OPTIONS" && AuthorizationGiven(req)
    ensures be.getUser == Threw(m) ==> Handle(req, be).response == Respond(500, ErrorBody(m))
    ensures Authenticated(req, be) && be.hasRole == Threw(m) ==> Handle(req, be).response == Respond(500, ErrorBody(m))
    ensures GatePassed(req, be) && be.body == Threw(m) ==> Handle(req, be).response == Respond(500, ErrorBody(m))
    ensures GatePassed(req, be) && be.body == Returned(JNull) ==>
      Handle(req, be).response == Respond(500, ErrorBody(be.nullBodyError))
    ensures BodyDispatched(req, be) && ActionIs(be, "change_password") &&
            PasswordAccepted(Get(be.body.value, "new_password")) && be.updateUser == Threw(m) ==>
      Handle(req, be).response == Respond(500, ErrorBody(m))
    ensures BodyDispatched(req, be) && ActionIs(be, "change_password") &&
            PasswordCheck(Get(be.body.value, "new_password")).ComparisonThrows? ==>
      Handle(req, be) == Reply(Respond(500, ErrorBody(be.conversionError)), GatePrefix(req, be))
    ensures BodyDispatched(req, be) && ActionIs(be, "create_admin") &&
            Truthy(Get(be.body.value, "email")) && Truthy(Get(be.body.value, "password")) &&
            (be.createUser == Threw(m) || (be.createUser.Returned? && be.createUser.value.Created? && be.insertRole == Threw(m))) ==>
      Handle(req, be).response == Respond(500, ErrorBody(m))
  {
  }
}
