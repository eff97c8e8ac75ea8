/**
 * `CustomUserManager`: `create_user` and `create_superuser` check the
 * required values, build the record, store the password hash and save the
 * row, which the e-mail's UNIQUE constraint can refuse.
 */
module UserManager {
  import opened Wrappers
  import opened UserModel
  import TimeStamps

  /** The keyword arguments passed on to the record (`**kwargs`). */
  datatype Extra = Extra(isActive: Option<bool>, isStaff: Option<bool>, isSuperuser: Option<bool>,
                         avatar: Option<string>)

  const NoExtra: Extra := Extra(None, None, None, None)

  datatype ManagerError =
    | MissingArguments(names: seq<string>)  // TypeError: required positional arguments not given
    | ValueError(message: string)
    | IntegrityError(column: string)        // the UNIQUE constraint refused the INSERT

  /**
   * The two Django hooks the manager calls and this model does not open:
   * `normalize_email` and the hasher behind `set_password`.
   */
  datatype Hooks = Hooks(normalizeEmail: string -> string, makePassword: string -> string)

  /** The arguments of one call; a name the caller did not pass at all is `None`. */
  datatype UserArgs = UserArgs(email: string, firstName: Option<string>, lastName: Option<string>,
                               password: string, extra: Extra)

  /** A saved row: the new table and the record that was saved into it. */
  datatype Saved = Saved(users: UserTable, user: CustomUser)

  /** The positional parameters the call leaves out, in declaration order. */
  function MissingNames(args: UserArgs): (names: seq<string>)
    ensures names == [] <==> args.firstName.Some? && args.lastName.Some?
  {
    (if args.firstName.None? then ["first_name"] else []) + (if args.lastName.None? then ["last_name"] else [])
  }

  /** The two guards, e-mail first; an empty value counts as missing. */
  function CheckRequired(email: string, password: string): Option<ManagerError>
  {
    if email == "" then Some(ValueError("Email is required"))
    else if password == "" then Some(ValueError("Password is required"))
    else None
  }

  /** `self.model(email=…, first_name=…, last_name=…, **kwargs)` plus `set_password`. */
  function Build(id: nat, email: string, firstName: string, lastName: string, hash: string,
                 extra: Extra, now: nat): (u: CustomUser)
    ensures u.id == id && u.email == email && u.firstName == firstName && u.lastName == lastName
    ensures u.password == hash
    ensures u.isActive == extra.isActive.GetOr(DefaultIsActive)
    ensures u.isStaff == extra.isStaff.GetOr(DefaultIsStaff)
    ensures u.isSuperuser == extra.isSuperuser.GetOr(DefaultIsSuperuser)
    ensures u.avatar == extra.avatar && u.lastLogin == None
    ensures u.dateJoined == now && u.stamps == TimeStamps.OnCreate(now)
  {
    CustomUser(id, email, hash, firstName, lastName,
               extra.isActive.GetOr(DefaultIsActive), extra.isStaff.GetOr(DefaultIsStaff),
               extra.isSuperuser.GetOr(DefaultIsSuperuser), now, extra.avatar, None,
               TimeStamps.OnCreate(now))
  }

  /** `user.save()` of a new row: the INSERT, refused when the e-mail is already stored. */
  function Insert(users: UserTable, user: CustomUser): Result<Saved, ManagerError>
  {
    if EmailTaken(users, user.email) then Failure(IntegrityError("email"))
    else Success(Saved(users[user.id := user], user))
  }

  /** The manager's common tail once the e-mail to store is known. */
  function Finish(users: UserTable, nextId: nat, hooks: Hooks, args: UserArgs, email: string,
                  extra: Extra, now: nat): Result<Saved, ManagerError>
    requires args.firstName.Some? && args.lastName.Some?
  {
    var user := Build(nextId, email, args.firstName.value, args.lastName.value,
                      hooks.makePassword(args.password), extra, now);
    Insert(users, user)
  }

  /** `create_user`. */
  function CreateUser(users: UserTable, nextId: nat, hooks: Hooks, args: UserArgs, now: nat)
    : Result<Saved, ManagerError>
  {
    if MissingNames(args) != [] then Failure(MissingArguments(MissingNames(args)))
    else if CheckRequired(args.email, args.password).Some? then
      Failure(CheckRequired(args.email, args.password).value)
    else Finish(users, nextId, hooks, args, hooks.normalizeEmail(args.email), args.extra, now)
  }

  /**
   * `kwargs.setdefault("is_staff", True)`, the same for `is_superuser`, and
   * the two checks that follow: a flag given as anything but True refuses.
   */
  function SuperuserExtra(extra: Extra): (r: Result<Extra, ManagerError>)
    ensures r.Success? <==> extra.isStaff != Some(false) && extra.isSuperuser != Some(false)
    ensures r.Success? ==> r.value == extra.(isStaff := Some(true), isSuperuser := Some(true))
    ensures extra.isStaff == Some(false) ==>
      r == Failure(ValueError("Superuser must have is_staff=True."))
    ensures extra.isStaff != Some(false) && extra.isSuperuser == Some(false) ==>
      r == Failure(ValueError("Superuser must have is_superuser=True."))
  {
    var withDefaults := extra.(isStaff := Some(extra.isStaff.GetOr(true)),
                               isSuperuser := Some(extra.isSuperuser.GetOr(true)));
    assert withDefaults.isStaff != Some(true) <==> extra.isStaff == Some(false) by {
      if extra.isStaff.Some? { assert extra.isStaff.GetOr(true) == extra.isStaff.value; }
    }
    assert withDefaults.isSuperuser != Some(true) <==> extra.isSuperuser == Some(false) by {
      if extra.isSuperuser.Some? { assert extra.isSuperuser.GetOr(true) == extra.isSuperuser.value; }
    }
    if withDefaults.isStaff != Some(true) then Failure(ValueError("Superuser must have is_staff=True."))
    else if withDefaults.isSuperuser != Some(true) then Failure(ValueError("Superuser must have is_superuser=True."))
    else Success(withDefaults)
  }

  /** `create_superuser`: the e-mail is stored as given, not normalised. */
  function CreateSuperuser(users: UserTable, nextId: nat, hooks: Hooks, args: UserArgs, now: nat)
    : Result<Saved, ManagerError>
  {
    if MissingNames(args) != [] then Failure(MissingArguments(MissingNames(args)))
    else if CheckRequired(args.email, args.password).Some? then
      Failure(CheckRequired(args.email, args.password).value)
    else
      match SuperuserExtra(args.extra)
      case Failure(e) => Failure(e)
      case Success(extra) => Finish(users, nextId, hooks, args, args.email, extra, now)
  }

  /** What a successful save of `u` into `users` under a fresh key looks like. */
  predicate SavedOnce(users: UserTable, nextId: nat, out: Saved)
  {
    && out.user.id == nextId
    && nextId !in users
    && out.users == users[nextId := out.user]
    && |out.users| == |users| + 1
  }

  /** The e-mail is checked before the password, and both before anything is built. */
  lemma EmailCheckedFirst(users: UserTable, nextId: nat, hooks: Hooks, args: UserArgs, now: nat)
    requires args.firstName.Some? && args.lastName.Some? && args.email == ""
    ensures CreateUser(users, nextId, hooks, args, now) == Failure(ValueError("Email is required"))
    ensures CreateSuperuser(users, nextId, hooks, args, now) == Failure(ValueError("Email is required"))
  {
  }

  lemma PasswordRequired(users: UserTable, nextId: nat, hooks: Hooks, args: UserArgs, now: nat)
    requires args.firstName.Some? && args.lastName.Some? && args.email != "" && args.password == ""
    ensures CreateUser(users, nextId, hooks, args, now) == Failure(ValueError("Password is required"))
    ensures CreateSuperuser(users, nextId, hooks, args, now) == Failure(ValueError("Password is required"))
  {
  }

  /**
   * `create_user` succeeds exactly when both names are passed, e-mail and
   * password are non-empty and the normalised e-mail is not stored yet. Then
   * exactly one row is added under the fresh key, and it is the one returned:
   * normalised e-mail, hashed password, the keyword arguments as given and
   * the defaults for the rest.
   */
  lemma CreateUserOutcome(users: UserTable, nextId: nat, hooks: Hooks, args: UserArgs, now: nat)
    requires forall k | k in users :: k < nextId
    ensures var r := CreateUser(users, nextId, hooks, args, now);
      r.Success? <==>
        && args.firstName.Some? && args.lastName.Some?
        && args.email != "" && args.password != ""
        && !EmailTaken(users, hooks.normalizeEmail(args.email))
    ensures var r := CreateUser(users, nextId, hooks, args, now);
      r.Success? ==>
        var u := r.value.user;
        && SavedOnce(users, nextId, r.value)
        && u.email == hooks.normalizeEmail(args.email)
        && u.password == hooks.makePassword(args.password)
        && u.firstName == args.firstName.value && u.lastName == args.lastName.value
        && u.isActive == args.extra.isActive.GetOr(true)
        && u.isStaff == args.extra.isStaff.GetOr(false)
        && u.isSuperuser == args.extra.isSuperuser.GetOr(false)
        && u.avatar == args.extra.avatar
        && u.stamps.deletedAt == None
  {
    assert nextId !in users;
  }

  /**
   * `create_superuser` stores the e-mail exactly as given, and the saved
   * user is always staff and superuser.
   */
  lemma CreateSuperuserOutcome(users: UserTable, nextId: nat, hooks: Hooks, args: UserArgs, now: nat)
    requires forall k | k in users :: k < nextId
    ensures var r := CreateSuperuser(users, nextId, hooks, args, now);
      r.Success? <==>
        && args.firstName.Some? && args.lastName.Some?
        && args.email != "" && args.password != ""
        && args.extra.isStaff != Some(false) && args.extra.isSuperuser != Some(false)
        && !EmailTaken(users, args.email)
    ensures var r := CreateSuperuser(users, nextId, hooks, args, now);
      r.Success? ==>
        var u := r.value.user;
        && SavedOnce(users, nextId, r.value)
        && u.email == args.email
        && u.password == hooks.makePassword(args.password)
        && u.isStaff && u.isSuperuser
        && u.isActive == args.extra.isActive.GetOr(true)
  {
    assert nextId !in users;
  }

  /** Both creation paths keep e-mails unique and rows under their own keys. */
  lemma CreationKeepsTableValid(users: UserTable, nextId: nat, hooks: Hooks, args: UserArgs, now: nat)
    requires EmailsUnique(users) && KeysMatch(users)
    ensures var r := CreateUser(users, nextId, hooks, args, now);
      r.Success? ==> EmailsUnique(r.value.users) && KeysMatch(r.value.users)
    ensures var r := CreateSuperuser(users, nextId, hooks, args, now);
      r.Success? ==> EmailsUnique(r.value.users) && KeysMatch(r.value.users)
  {
  }
}
