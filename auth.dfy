/**
 * The registration and login serializers: which inputs they accept, the
 * errors they report, what `create` hands to the user manager, and what
 * each returns to the client. Token minting and `authenticate` belong to
 * the JWT library and to Django; both are parameters here.
 */
module AuthSerializers {
  import opened Wrappers
  import opened UserModel
  import opened JsonValues
  import Fields
  import Text
  import UserManager

  const PasswordMinLength: nat := 8
  const PasswordsMustMatch: string := "Passwords must match!"
  const InvalidCredentials: string := "Invalid email or password"

  /** What a registration shows: the passwords are write-only, `tokens` read-only. */
  const RegistrationOutputFields: seq<string> := ["email", "tokens"]
  const TokenFields: seq<string> := ["access", "refresh"]
  const LoginOutputFields: seq<string> := ["email", "access", "refresh"]

  /** The pair `RefreshToken.for_user` returns, as strings; its contents are the JWT library's. */
  datatype Tokens = Tokens(access: string, refresh: string)

  /** Validated registration data. */
  datatype Registration = Registration(email: string, password: string, passwordConfirm: string)

  /** `get_tokens`: exactly `access` and `refresh`. */
  function TokensJson(tk: Tokens): (j: Json)
    ensures j.JObj? && Keys(j.members) == TokenFields
  {
    Record(TokenFields, [JStr(tk.access), JStr(tk.refresh)])
  }

  /** The e-mail as `ModelSerializer` derives it from the model: unique, at most 254 characters. */
  function RegistrationEmail(users: UserTable, v: Option<Value>, isEmail: string -> bool): Fields.Outcome<string>
  {
    Fields.EmailField(v, true, Some(EmailMaxLength), Some((s: string) => EmailTaken(users, s)), isEmail)
  }

  /** `password` and `password_confirm`: required, trimmed, at least eight characters. */
  function PasswordField(v: Option<Value>): Fields.Outcome<string>
  {
    Fields.CharField(v, true, false, None, Some(PasswordMinLength))
  }

  /** The three field outcomes of a registration body, in declaration order. */
  function RegistrationErrors(email: Fields.Outcome<string>, password: Fields.Outcome<string>,
                              confirm: Fields.Outcome<string>): Errors
  {
    Fields.Note("email", email) + Fields.Note("password", password) + Fields.Note("password_confirm", confirm)
  }

  /**
   * `RegistrationSerializer(data=…).is_valid()`: the fields, then `validate`,
   * which compares the two passwords.
   */
  function ValidateRegistration(users: UserTable, body: Body, isEmail: string -> bool): Result<Registration, Errors>
  {
    match body
    case Other(v) => Failure([(NonFieldErrors, Fields.NotAnObjectMessages(v))])
    case Object(f) =>
      var email := RegistrationEmail(users, Fields.Lookup(f, "email"), isEmail);
      var password := PasswordField(Fields.Lookup(f, "password"));
      var confirm := PasswordField(Fields.Lookup(f, "password_confirm"));
      if !email.Valid? || !password.Valid? || !confirm.Valid? then
        Failure(RegistrationErrors(email, password, confirm))
      else if password.value != confirm.value then Failure([("password", [PasswordsMustMatch])])
      else Success(Registration(email.value, password.value, confirm.value))
  }

  /** No field of a registration body is skipped: all three are required on a full write. */
  lemma RegistrationFieldsRequired(users: UserTable, f: map<string, Value>, isEmail: string -> bool)
    ensures var email := RegistrationEmail(users, Fields.Lookup(f, "email"), isEmail);
      var password := PasswordField(Fields.Lookup(f, "password"));
      var confirm := PasswordField(Fields.Lookup(f, "password_confirm"));
      && !email.Omitted? && !password.Omitted? && !confirm.Omitted?
      && (RegistrationErrors(email, password, confirm) == [] <==> email.Valid? && password.Valid? && confirm.Valid?)
  {
  }

  /**
   * A registration is accepted exactly when the body is an object, the
   * e-mail is a free address, both passwords have at least eight characters
   * and they match; the accepted values are the trimmed inputs.
   */
  lemma RegistrationAccepted(users: UserTable, body: Body, isEmail: string -> bool)
    ensures var r := ValidateRegistration(users, body, isEmail);
      r.Success? <==>
        && body.Object?
        && RegistrationEmail(users, Fields.Lookup(body.fields, "email"), isEmail).Valid?
        && PasswordField(Fields.Lookup(body.fields, "password")).Valid?
        && PasswordField(Fields.Lookup(body.fields, "password_confirm")).Valid?
        && PasswordField(Fields.Lookup(body.fields, "password")).value
           == PasswordField(Fields.Lookup(body.fields, "password_confirm")).value
    ensures var r := ValidateRegistration(users, body, isEmail);
      r.Success? ==>
        && r.value.email == Text.Strip(JsonValues.Str(body.fields["email"]))
        && !EmailTaken(users, r.value.email) && |r.value.email| <= EmailMaxLength && isEmail(r.value.email)
        && r.value.password == Text.Strip(JsonValues.Str(body.fields["password"]))
        && |r.value.password| >= PasswordMinLength && r.value.password == r.value.passwordConfirm
  {
  }

  /** Valid fields whose passwords differ give the one error on `password`. */
  lemma MismatchRefused(users: UserTable, f: map<string, Value>, isEmail: string -> bool)
    requires RegistrationEmail(users, Fields.Lookup(f, "email"), isEmail).Valid?
    requires PasswordField(Fields.Lookup(f, "password")).Valid?
    requires PasswordField(Fields.Lookup(f, "password_confirm")).Valid?
    requires PasswordField(Fields.Lookup(f, "password")).value != PasswordField(Fields.Lookup(f, "password_confirm")).value
    ensures ValidateRegistration(users, Object(f), isEmail) == Failure([("password", [PasswordsMustMatch])])
  {
  }

  /**
   * A password shorter than eight characters is refused with the minimum
   * length message, whatever the other fields say.
   */
  lemma ShortPasswordRefused(users: UserTable, f: map<string, Value>, isEmail: string -> bool)
    requires "password" in f && f["password"].VStr?
    requires var s := Text.Strip(f["password"].s); s != [] && |s| < PasswordMinLength && Fields.NullChar !in s
    ensures var r := ValidateRegistration(users, Object(f), isEmail);
      r.Failure? && ("password", [Fields.MinLengthMessage(PasswordMinLength)]) in r.error
  {
    var v := Fields.Lookup(f, "password");
    Fields.TooShortRefused(v, true, false, PasswordMinLength);
    var email := RegistrationEmail(users, Fields.Lookup(f, "email"), isEmail);
    var password := PasswordField(v);
    var confirm := PasswordField(Fields.Lookup(f, "password_confirm"));
    assert ValidateRegistration(users, Object(f), isEmail) == Failure(RegistrationErrors(email, password, confirm));
    var n := Fields.Note("email", email);
    assert RegistrationErrors(email, password, confirm)[|n|] == ("password", [Fields.MinLengthMessage(PasswordMinLength)]);
  }

  /** An e-mail already stored is refused with the uniqueness message. */
  lemma TakenEmailRefused(users: UserTable, f: map<string, Value>, isEmail: string -> bool)
    requires "email" in f && f["email"].VStr?
    requires var s := Text.Strip(f["email"].s); s != [] && EmailTaken(users, s)
    ensures var r := ValidateRegistration(users, Object(f), isEmail);
      r.Failure? && |r.error| > 0 && r.error[0].0 == "email"
      && |r.error[0].1| > 0 && r.error[0].1[0] == Fields.UniqueMessage
  {
    var s := Text.Strip(f["email"].s);
    assert Fields.TextValue(f["email"]) == Fields.Valid(s);
    Fields.TakenEmailFirst(Fields.Lookup(f, "email"), true, Some(EmailMaxLength),
                           Some((s: string) => EmailTaken(users, s)), isEmail);
  }

  /**
   * `create` as written: `password_confirm` is dropped, and `create_user`
   * receives only the e-mail and the password.
   */
  function CreateArgs(d: Registration): UserManager.UserArgs
  {
    UserManager.UserArgs(d.email, None, None, d.password, UserManager.NoExtra)
  }

  /**
   * So `create` always fails: `create_user` requires `first_name` and
   * `last_name`, and Python refuses the call before its body runs.
   */
  lemma CreateAsWrittenFails(users: UserTable, nextId: nat, hooks: UserManager.Hooks, d: Registration, now: nat)
    ensures UserManager.CreateUser(users, nextId, hooks, CreateArgs(d), now)
            == Failure(UserManager.MissingArguments(["first_name", "last_name"]))
  {
    var names := UserManager.MissingNames(CreateArgs(d));
    assert |names| == 2 && names[0] == "first_name" && names[1] == "last_name";
    assert names == ["first_name", "last_name"];
  }

  /** `create` as intended: the names the model requires are passed, empty. */
  function CreateArgsFixed(d: Registration): UserManager.UserArgs
  {
    UserManager.UserArgs(d.email, Some(""), Some(""), d.password, UserManager.NoExtra)
  }

  /** Accepted registrations have a non-empty e-mail and password, as `create_user` demands. */
  lemma AcceptedRegistrationNonEmpty(users: UserTable, body: Body, isEmail: string -> bool)
    ensures var v := ValidateRegistration(users, body, isEmail);
      v.Success? ==> v.value.email != "" && |v.value.password| >= PasswordMinLength
  {
  }

  /**
   * With the names passed, a registration with an e-mail and a password is
   * saved unless the normalised e-mail is already stored, and the saved user
   * is an active, ordinary account with the hashed password.
   */
  lemma CreateFixedOutcome(users: UserTable, nextId: nat, hooks: UserManager.Hooks, d: Registration, now: nat)
    requires forall k | k in users :: k < nextId
    requires d.email != "" && d.password != ""
    ensures var c := UserManager.CreateUser(users, nextId, hooks, CreateArgsFixed(d), now);
      && (c.Success? <==> !EmailTaken(users, hooks.normalizeEmail(d.email)))
      && (c.Failure? ==> c.error == UserManager.IntegrityError("email"))
      && (c.Success? ==>
            var u := c.value.user;
            && u.email == hooks.normalizeEmail(d.email)
            && u.password == hooks.makePassword(d.password)
            && u.firstName == "" && u.lastName == ""
            && u.isActive && !u.isStaff && !u.isSuperuser)
  {
    UserManager.CreateUserOutcome(users, nextId, hooks, CreateArgsFixed(d), now);
  }

  /** `serializer.data` after `save()`: the e-mail and the tokens, never a password. */
  function RegistrationJson(u: CustomUser, tk: Tokens): (j: Json)
    ensures j.JObj? && Keys(j.members) == RegistrationOutputFields
    ensures j.members[1].1 == TokensJson(tk)
  {
    Record(RegistrationOutputFields, [JStr(u.email), TokensJson(tk)])
  }

  /** The registration output depends on the saved user's e-mail alone, besides the tokens. */
  lemma RegistrationShowsOnlyEmail(u: CustomUser, v: CustomUser, tk: Tokens)
    requires u.email == v.email
    ensures RegistrationJson(u, tk) == RegistrationJson(v, tk)
  {
  }

  /** Login credentials after the field checks. */
  datatype Credentials = Credentials(email: string, password: string)

  /** What a successful login returns. */
  datatype Login = Login(email: string, tokens: Tokens)

  /** `LoginSerializer`'s fields: an address (no uniqueness, no length bound) and a password. */
  function LoginFields(body: Body, isEmail: string -> bool): Result<Credentials, Errors>
  {
    match body
    case Other(v) => Failure([(NonFieldErrors, Fields.NotAnObjectMessages(v))])
    case Object(f) =>
      var email := Fields.EmailField(Fields.Lookup(f, "email"), true, None, None, isEmail);
      var password := Fields.CharField(Fields.Lookup(f, "password"), true, false, None, None);
      if email.Valid? && password.Valid? then Success(Credentials(email.value, password.value))
      else Failure(Fields.Note("email", email) + Fields.Note("password", password))
  }

  /**
   * `LoginSerializer(data=…).is_valid()`: the fields, then `authenticate`;
   * no user gives the one generic error, a user gives its e-mail and a
   * fresh token pair.
   */
  function ValidateLogin(body: Body, isEmail: string -> bool, authenticate: (string, string) -> Option<CustomUser>,
                         mint: CustomUser -> Tokens): Result<Login, Errors>
  {
    match LoginFields(body, isEmail)
    case Failure(e) => Failure(e)
    case Success(c) =>
      match authenticate(c.email, c.password)
      case None => Failure([(NonFieldErrors, [InvalidCredentials])])
      case Some(u) => Success(Login(u.email, mint(u)))
  }

  /**
   * A login succeeds exactly when the fields pass and `authenticate` finds
   * a user; an unknown e-mail and a wrong password both give the same single
   * error; a success carries the user's e-mail and the tokens minted for it.
   */
  lemma LoginOutcome(body: Body, isEmail: string -> bool, authenticate: (string, string) -> Option<CustomUser>,
                     mint: CustomUser -> Tokens)
    ensures var c := LoginFields(body, isEmail);
      var r := ValidateLogin(body, isEmail, authenticate, mint);
      && (r.Success? <==> c.Success? && authenticate(c.value.email, c.value.password).Some?)
      && (c.Success? && authenticate(c.value.email, c.value.password).None? ==>
            r == Failure([(NonFieldErrors, [InvalidCredentials])]))
      && (c.Failure? ==> r == Failure(c.error))
      && (r.Success? ==>
            var u := authenticate(c.value.email, c.value.password).value;
            r.value == Login(u.email, mint(u)))
  {
  }

  /** `validated_data` of a login: exactly `email`, `access` and `refresh`. */
  function LoginJson(l: Login): (j: Json)
    ensures j.JObj? && Keys(j.members) == LoginOutputFields
  {
    Record(LoginOutputFields, [JStr(l.email), JStr(l.tokens.access), JStr(l.tokens.refresh)])
  }

  /** Neither output ever names a password. */
  lemma OutputsHaveNoPassword()
    ensures forall k | k in RegistrationOutputFields + TokenFields + LoginOutputFields ::
      k != "password" && k != "password_confirm"
  {
  }
}
