/**
 * `AuthViewSet`: login, registration and token refresh, each mapping its
 * serializer's outcome to a status and a body. All three are open to
 * anonymous callers (`AllowAny`), so none of them takes a user. The answers
 * are those to a request without an `Authorization` header: the JWT check
 * that runs before any view body is not part of this model.
 */
module AuthViews {
  import opened Wrappers
  import opened UserModel
  import opened JsonValues
  import opened AuthSerializers
  import Fields
  import UserManager
  import Database

  const Ok: nat := 200
  const Created: nat := 201
  const BadRequest: nat := 400
  const Unauthorized: nat := 401

  const TokenNotValid: string := "token_not_valid"
  const InvalidTokenFields: seq<string> := ["detail", "code"]

  /** The Python exception each manager failure raises; the views do not catch any of them. */
  function ExceptionName(e: UserManager.ManagerError): string
  {
    match e
    case MissingArguments(_) => "TypeError"
    case ValueError(_) => "ValueError"
    case IntegrityError(_) => "IntegrityError"
  }

  /** `login`: the validated data with 200, or the serializer's errors with 400. */
  function LoginView(body: Body, isEmail: string -> bool, authenticate: (string, string) -> Option<CustomUser>,
                     mint: CustomUser -> Tokens): Response
  {
    match ValidateLogin(body, isEmail, authenticate, mint)
    case Success(l) => Reply(Ok, LoginJson(l))
    case Failure(e) => Reply(BadRequest, ErrorsJson(e))
  }

  /**
   * Login answers 200 exactly when the fields pass and `authenticate` finds
   * a user, with that user's e-mail and tokens and no other field; otherwise
   * 400, and bad credentials of any kind read the same.
   */
  lemma LoginStatus(body: Body, isEmail: string -> bool, authenticate: (string, string) -> Option<CustomUser>,
                    mint: CustomUser -> Tokens)
    ensures var r := LoginView(body, isEmail, authenticate, mint);
      var c := LoginFields(body, isEmail);
      && r.Reply? && (r.status == Ok || r.status == BadRequest)
      && (r.status == Ok <==> c.Success? && authenticate(c.value.email, c.value.password).Some?)
      && (r.status == Ok ==>
            var u := authenticate(c.value.email, c.value.password).value;
            r.body == LoginJson(Login(u.email, mint(u))) && Keys(r.body.members) == LoginOutputFields)
      && (c.Success? && authenticate(c.value.email, c.value.password).None? ==>
            r == Reply(BadRequest, ErrorsJson([(NonFieldErrors, [InvalidCredentials])])))
  {
    LoginOutcome(body, isEmail, authenticate, mint);
  }

  /** What `register` as written answers: 400 for an invalid body, otherwise the `TypeError` of `create`. */
  function RegisterAsWritten(users: UserTable, body: Body, isEmail: string -> bool): Response
  {
    match ValidateRegistration(users, body, isEmail)
    case Failure(e) => Reply(BadRequest, ErrorsJson(e))
    case Success(_) => Unhandled("TypeError")
  }

  /**
   * `register` as written: validate, then `serializer.save()`, whose
   * `create` calls `create_user` without the names. Nothing is ever saved.
   */
  method Register(db: Database.Store, body: Body, hooks: UserManager.Hooks, isEmail: string -> bool,
                  mint: CustomUser -> Tokens, now: nat) returns (r: Response)
    requires db.Valid()
    modifies db
    ensures db.Valid()
    ensures db.Snapshot() == old(db.Snapshot()) && db.nextId == old(db.nextId)
    ensures r == RegisterAsWritten(old(db.users), body, isEmail)
  {
    var v := ValidateRegistration(db.users, body, isEmail);
    if v.Failure? {
      return Reply(BadRequest, ErrorsJson(v.error));
    }
    CreateAsWrittenFails(db.users, db.nextId, hooks, v.value, now);
    var saved := db.CreateUser(hooks, CreateArgs(v.value), now);
    // `save()` always raises here, so the 201 reply after it is never reached.
    r := Unhandled(ExceptionName(saved.error));
  }

  /** As written, registration never answers 201: an invalid body gets 400, a valid one a 500. */
  lemma RegisterNeverCreates(users: UserTable, body: Body, isEmail: string -> bool)
    ensures var r := RegisterAsWritten(users, body, isEmail);
      && StatusOf(r) != Created
      && (StatusOf(r) == BadRequest <==> ValidateRegistration(users, body, isEmail).Failure?)
      && (StatusOf(r) == InternalServerError <==> ValidateRegistration(users, body, isEmail).Success?)
  {
  }

  /** The intended registration: validation, then the corrected `create`. */
  function Registered(users: UserTable, nextId: nat, hooks: UserManager.Hooks, body: Body,
                      isEmail: string -> bool, now: nat): Result<UserManager.Saved, Result<Errors, UserManager.ManagerError>>
  {
    match ValidateRegistration(users, body, isEmail)
    case Failure(e) => Failure(Success(e))
    case Success(d) =>
      match UserManager.CreateUser(users, nextId, hooks, CreateArgsFixed(d), now)
      case Success(saved) => Success(saved)
      case Failure(e) => Failure(Failure(e))
  }

  /** The response for an outcome of `Registered`. */
  function RegisterResponse(o: Result<UserManager.Saved, Result<Errors, UserManager.ManagerError>>,
                            mint: CustomUser -> Tokens): Response
  {
    match o
    case Success(saved) => Reply(Created, RegistrationJson(saved.user, mint(saved.user)))
    case Failure(Success(e)) => Reply(BadRequest, ErrorsJson(e))
    case Failure(Failure(e)) => Unhandled(ExceptionName(e))
  }

  /**
   * `register` with `create` corrected: 201 with the e-mail and tokens
   * after the user is saved, 400 with nothing saved, or the manager's
   * exception with nothing saved.
   */
  method RegisterFixed(db: Database.Store, body: Body, hooks: UserManager.Hooks, isEmail: string -> bool,
                       mint: CustomUser -> Tokens, now: nat) returns (r: Response)
    requires db.Valid()
    modifies db
    ensures db.Valid()
    ensures var o := Registered(old(db.users), old(db.nextId), hooks, body, isEmail, now);
      && r == RegisterResponse(o, mint)
      && (o.Success? ==> db.Snapshot() == old(db.Snapshot()).(users := o.value.users) && db.nextId == old(db.nextId) + 1)
      && (o.Failure? ==> db.Snapshot() == old(db.Snapshot()) && db.nextId == old(db.nextId))
  {
    var v := ValidateRegistration(db.users, body, isEmail);
    if v.Failure? {
      return Reply(BadRequest, ErrorsJson(v.error));
    }
    var saved := db.CreateUser(hooks, CreateArgsFixed(v.value), now);
    if saved.Success? {
      r := Reply(Created, RegistrationJson(saved.value, mint(saved.value)));
    } else {
      r := Unhandled(ExceptionName(saved.error));
    }
  }

  /**
   * The corrected registration answers 201 exactly when the body is valid
   * and the normalised e-mail is free, saving one new user under the next
   * key; 400 exactly when the body is invalid; a clash of normalised
   * e-mails the uniqueness check did not see is an `IntegrityError`.
   */
  lemma RegisterFixedRule(users: UserTable, nextId: nat, hooks: UserManager.Hooks, body: Body,
                          isEmail: string -> bool, mint: CustomUser -> Tokens, now: nat)
    requires forall k | k in users :: k < nextId
    ensures var v := ValidateRegistration(users, body, isEmail);
      var o := Registered(users, nextId, hooks, body, isEmail, now);
      var r := RegisterResponse(o, mint);
      && (StatusOf(r) == BadRequest <==> v.Failure?)
      && (StatusOf(r) == Created <==> v.Success? && !EmailTaken(users, hooks.normalizeEmail(v.value.email)))
      && (v.Success? && EmailTaken(users, hooks.normalizeEmail(v.value.email)) ==> r == Unhandled("IntegrityError"))
      && (o.Success? ==>
            var u := o.value.user;
            && o.value.users == users[nextId := u] && u.id == nextId
            && u.email == hooks.normalizeEmail(v.value.email)
            && r.body == RegistrationJson(u, mint(u)))
  {
    var v := ValidateRegistration(users, body, isEmail);
    if v.Success? {
      AcceptedRegistrationNonEmpty(users, body, isEmail);
      CreateFixedOutcome(users, nextId, hooks, v.value, now);
      UserManager.CreateUserOutcome(users, nextId, hooks, CreateArgsFixed(v.value), now);
    }
  }

  /** What the JWT library makes of a refresh token: a new pair (rotation is on), or a `TokenError`. */
  datatype RefreshOutcome = Refreshed(tokens: Tokens) | TokenError(message: string)

  /**
   * `token`: the serializer's field check, then the library's verdict; a
   * `TokenError` becomes `InvalidToken`, which answers 401.
   */
  function RefreshView(body: Body, verify: string -> RefreshOutcome): Response
  {
    match body
    case Other(v) => Reply(BadRequest, ErrorsJson([(NonFieldErrors, Fields.NotAnObjectMessages(v))]))
    case Object(f) =>
      var field := Fields.CharField(Fields.Lookup(f, "refresh"), true, false, None, None);
      if !field.Valid? then Reply(BadRequest, ErrorsJson(Fields.Note("refresh", field)))
      else
        match verify(field.value)
        case Refreshed(tk) => Reply(Ok, TokensJson(tk))
        case TokenError(m) => Reply(Unauthorized, Record(InvalidTokenFields, [JStr(m), JStr(TokenNotValid)]))
  }

  /**
   * Refresh answers 200 with the new pair, 401 with the library's message
   * and the code `token_not_valid` when the token is refused, and 400 when
   * the body has no usable `refresh`.
   */
  lemma RefreshStatus(body: Body, verify: string -> RefreshOutcome)
    ensures var r := RefreshView(body, verify);
      && r.Reply? && (r.status == Ok || r.status == BadRequest || r.status == Unauthorized)
      && (r.status != BadRequest <==>
            body.Object? && Fields.CharField(Fields.Lookup(body.fields, "refresh"), true, false, None, None).Valid?)
      && (r.status == Ok ==> Keys(r.body.members) == TokenFields)
      && (r.status != BadRequest ==>
            var s := Fields.CharField(Fields.Lookup(body.fields, "refresh"), true, false, None, None).value;
            && (r.status == Ok <==> verify(s).Refreshed?)
            && (verify(s).TokenError? ==>
                  r.body.members == [("detail", JStr(verify(s).message)), ("code", JStr(TokenNotValid))]))
  {
    var r := RefreshView(body, verify);
    if r.status != BadRequest {
      var s := Fields.CharField(Fields.Lookup(body.fields, "refresh"), true, false, None, None).value;
      if verify(s).TokenError? {
        var m := r.body.members;
        assert |m| == 2 && m[0] == ("detail", JStr(verify(s).message)) && m[1] == ("code", JStr(TokenNotValid));
      }
    }
  }

  /**
   * A body that is not an object gets 400 from all three actions, with the
   * one `non_field_errors` entry `Serializer.errors` gives: "No data
   * provided" for `null`, the expected-a-dictionary message otherwise.
   */
  lemma NotAnObjectAnswers(users: UserTable, v: Value, isEmail: string -> bool,
                           authenticate: (string, string) -> Option<CustomUser>,
                           mint: CustomUser -> Tokens, verify: string -> RefreshOutcome)
    ensures var m := if v.VNull? then Fields.NoDataProvided else Fields.NotADictionaryMessage(v);
      var r := Reply(BadRequest, ErrorsJson([(NonFieldErrors, [m])]));
      && LoginView(Other(v), isEmail, authenticate, mint) == r
      && RegisterAsWritten(users, Other(v), isEmail) == r
      && RefreshView(Other(v), verify) == r
  {
  }
}
