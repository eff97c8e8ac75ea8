/**
 * The `CustomUser` record: the login identifier is the e-mail, which is
 * unique; first and last name are the required fields, declared with at
 * most 50 characters; new users are active and not staff unless told
 * otherwise; the avatar may be left empty.
 */
module UserModel {
  import opened Wrappers
  import TimeStamps

  const FirstNameMaxLength: nat := 50
  const LastNameMaxLength: nat := 50
  /** The default length of an EmailField column. */
  const EmailMaxLength: nat := 254

  /** USERNAME_FIELD and REQUIRED_FIELDS. */
  const UsernameField: string := "email"
  const RequiredFields: seq<string> := ["first_name", "last_name"]

  datatype CustomUser = CustomUser(
    id: nat,
    email: string,
    password: string,         // what `set_password` stored: the hash, not the plaintext
    firstName: string,
    lastName: string,
    isActive: bool,
    isStaff: bool,
    isSuperuser: bool,        // from PermissionsMixin
    dateJoined: nat,
    avatar: Option<string>,   // a stored file name, or none
    lastLogin: Option<nat>,   // from AbstractBaseUser
    stamps: TimeStamps.Stamps)

  /** The field defaults of a new record. */
  const DefaultIsActive: bool := true
  const DefaultIsStaff: bool := false
  const DefaultIsSuperuser: bool := false

  /** The declared column lengths of the two name fields. */
  predicate NamesWithinBounds(u: CustomUser)
  {
    |u.firstName| <= FirstNameMaxLength && |u.lastName| <= LastNameMaxLength
  }

  /** `__str__`. */
  function Str(u: CustomUser): string
  {
    "Email: " + u.email + ", Fullname: " + u.firstName + " " + u.lastName
  }

  /** The string shows the e-mail, then the first and the last name, each at its place. */
  lemma StrLayout(u: CustomUser)
    ensures var s := Str(u);
      var e, f := 7 + |u.email|, 7 + |u.email| + 12 + |u.firstName|;
      && |s| == f + 1 + |u.lastName|
      && s[..7] == "Email: "
      && s[7..e] == u.email
      && s[e..e + 12] == ", Fullname: "
      && s[e + 12..f] == u.firstName
      && s[f] == ' '
      && s[f + 1..] == u.lastName
  {
  }

  /** The user table, by primary key. */
  type UserTable = map<nat, CustomUser>

  /** The UNIQUE constraint on the e-mail column. */
  predicate EmailsUnique(users: UserTable)
  {
    forall a, b | a in users && b in users && a != b :: users[a].email != users[b].email
  }

  /** Every row is stored under its own primary key. */
  predicate KeysMatch(users: UserTable)
  {
    forall k | k in users :: users[k].id == k
  }

  predicate EmailTaken(users: UserTable, email: string)
  {
    exists k | k in users :: users[k].email == email
  }
}
