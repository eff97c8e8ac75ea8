/**
 * `CustomUserSerializer`: the profile representation of a user, with
 * `date_joined` read-only and written as `"%H:%M %d-%m-%Y"`, and what the
 * serializer would accept as a change to a user.
 */
module UserSerializers {
  import opened Wrappers
  import opened UserModel
  import opened JsonValues
  import Fields
  import DateFormat

  const ProfileFields: seq<string> := ["id", "email", "first_name", "last_name", "avatar", "date_joined"]

  /** Fields no input can set: the key, and `date_joined` by declaration. */
  const ProfileReadOnly: set<string> := {"id", "date_joined"}

  /** Stored fields that no representation of a user may show. */
  const Private: set<string> := {"password", "is_active", "is_staff", "is_superuser", "last_login"}

  /**
   * `ImageField.to_representation`: no file (none, or the empty name) is
   * `null`; otherwise the file's URL, which storage and request decide.
   */
  function AvatarJson(avatar: Option<string>, url: string -> string): (j: Json)
    ensures j == JNull <==> avatar.None? || avatar.value == ""
  {
    if avatar.None? || avatar.value == "" then JNull else JStr(url(avatar.value))
  }

  /** The representation; `to_representation` adds a log line and returns it unchanged. */
  function Profile(u: CustomUser, url: string -> string): Json
  {
    Record(ProfileFields, [
      JInt(u.id), JStr(u.email), JStr(u.firstName), JStr(u.lastName),
      AvatarJson(u.avatar, url), JStr(DateFormat.Show(u.dateJoined))])
  }

  /** The profile has exactly its six keys, in order. */
  lemma ProfileKeys(u: CustomUser, url: string -> string)
    ensures var p := Profile(u, url);
      p.JObj? && Keys(p.members) == ProfileFields
  {
  }

  /** None of the profile's keys is private. */
  lemma ProfileFieldsPublic()
    ensures forall k | k in ProfileFields :: k !in Private
  {
  }

  /** `date_joined` is the join time in the display format: reading it back gives that time to the minute. */
  lemma ProfileDateJoined(u: CustomUser, url: string -> string)
    ensures var p := Profile(u, url);
      && p.members[5].0 == "date_joined" && p.members[5].1.JStr?
      && DateFormat.ParseFormatted(p.members[5].1.s)
         == Some(DateFormat.FromTimestamp(u.dateJoined).(second := 0))
  {
    DateFormat.FormatRoundTrip(DateFormat.FromTimestamp(u.dateJoined));
  }

  /** Two users who agree on the public fields have the same profile, whatever else differs. */
  lemma ProfileShowsOnlyPublicFields(u: CustomUser, v: CustomUser, url: string -> string)
    requires u.id == v.id && u.email == v.email && u.firstName == v.firstName
    requires u.lastName == v.lastName && u.avatar == v.avatar && u.dateJoined == v.dateJoined
    ensures Profile(u, url) == Profile(v, url)
  {
  }

  /**
   * A change the serializer accepted: any of e-mail, names and avatar; absent
   * means unchanged, and `avatar == Some(None)` clears the picture.
   */
  datatype ProfileChange = ProfileChange(email: Option<string>, firstName: Option<string>, lastName: Option<string>,
                                         avatar: Option<Option<string>>)

  /** Another row than `id` already stores `email`: the uniqueness check on an update. */
  predicate TakenByOther(users: UserTable, id: nat, email: string)
  {
    exists k | k in users && k != id :: users[k].email == email
  }

  function EmailInput(users: UserTable, u: CustomUser, data: map<string, Value>, partial: bool,
                      isEmail: string -> bool): (r: Fields.Outcome<string>)
    ensures r.Valid? ==> !TakenByOther(users, u.id, r.value)
  {
    Fields.EmailField(Fields.Lookup(data, "email"), !partial, Some(EmailMaxLength),
                      Some((s: string) => TakenByOther(users, u.id, s)), isEmail)
  }

  const NotAFile: string := "The submitted data was not a file. Check the encoding type on the form."

  /**
   * `avatar` as `ModelSerializer` declares it for a nullable, blank-allowed
   * image: an `ImageField` that is not required and accepts null. A request
   * body carries no uploaded file, so null clears the picture and every other
   * value is refused.
   */
  function AvatarInput(v: Option<Value>): (r: Fields.Outcome<Option<string>>)
    ensures r.Omitted? <==> v.None?
    ensures r.Valid? <==> v == Some(VNull)
    ensures r.Valid? ==> r.value.None?
    ensures r.Invalid? ==> r.messages == [NotAFile]
  {
    match v
    case None => Fields.Omitted
    case Some(VNull) => Fields.Valid(None)
    case Some(_) => Fields.Invalid([NotAFile])
  }

  /** The inputs a change to `u` would be validated with (`ModelSerializer` defaults). */
  function ValidateProfile(users: UserTable, u: CustomUser, data: map<string, Value>, partial: bool,
                           isEmail: string -> bool): Result<ProfileChange, Errors>
  {
    var email := EmailInput(users, u, data, partial, isEmail);
    var first := Fields.CharField(Fields.Lookup(data, "first_name"), true, partial, Some(FirstNameMaxLength), None);
    var last := Fields.CharField(Fields.Lookup(data, "last_name"), true, partial, Some(LastNameMaxLength), None);
    var avatar := AvatarInput(Fields.Lookup(data, "avatar"));
    var errors := Fields.Note("email", email) + Fields.Note("first_name", first) + Fields.Note("last_name", last)
                  + Fields.Note("avatar", avatar);
    if errors != [] then Failure(errors)
    else Success(ProfileChange(Fields.ValueOf(email), Fields.ValueOf(first), Fields.ValueOf(last),
                               Fields.ValueOf(avatar)))
  }

  /** `serializer.update`: the validated fields are assigned, and the row saved. */
  function ApplyProfile(u: CustomUser, c: ProfileChange, now: nat): CustomUser
  {
    u.(email := c.email.GetOr(u.email), firstName := c.firstName.GetOr(u.firstName),
       lastName := c.lastName.GetOr(u.lastName), avatar := c.avatar.GetOr(u.avatar), stamps := u.stamps.(updatedAt := now))
  }

  /**
   * Read-only fields are read-only: whatever the input says about `id` or
   * `date_joined` (or any field the serializer does not declare), the
   * validation outcome is the same, and an accepted change keeps the key,
   * the join time, the password and the flags.
   */
  lemma ProfileReadOnlyIgnored(users: UserTable, u: CustomUser, data: map<string, Value>, partial: bool,
                               isEmail: string -> bool, k: string, v: Value, now: nat)
    requires k !in {"email", "first_name", "last_name", "avatar"}
    ensures ValidateProfile(users, u, data[k := v], partial, isEmail) == ValidateProfile(users, u, data, partial, isEmail)
    ensures var r := ValidateProfile(users, u, data, partial, isEmail);
      r.Success? ==>
        var w := ApplyProfile(u, r.value, now);
        && w.id == u.id && w.dateJoined == u.dateJoined && w.password == u.password
        && w.isStaff == u.isStaff && w.isSuperuser == u.isSuperuser && w.isActive == u.isActive
  {
    assert Fields.Lookup(data[k := v], "email") == Fields.Lookup(data, "email");
    assert Fields.Lookup(data[k := v], "first_name") == Fields.Lookup(data, "first_name");
    assert Fields.Lookup(data[k := v], "last_name") == Fields.Lookup(data, "last_name");
    assert Fields.Lookup(data[k := v], "avatar") == Fields.Lookup(data, "avatar");
  }

  /**
   * The avatar input: a non-null value is refused with the not-a-file message,
   * and an accepted null clears the picture while an absent one keeps it.
   */
  lemma AvatarChange(users: UserTable, u: CustomUser, data: map<string, Value>, partial: bool,
                     isEmail: string -> bool, now: nat)
    ensures var r := ValidateProfile(users, u, data, partial, isEmail);
      && ("avatar" in data && data["avatar"] != VNull ==> r.Failure? && ("avatar", [NotAFile]) in r.error)
      && (r.Success? ==>
            var w := ApplyProfile(u, r.value, now);
            && ("avatar" in data ==> w.avatar.None?)
            && ("avatar" !in data ==> w.avatar == u.avatar))
  {
    var r := ValidateProfile(users, u, data, partial, isEmail);
    if "avatar" in data && data["avatar"] != VNull {
      var email := EmailInput(users, u, data, partial, isEmail);
      var first := Fields.CharField(Fields.Lookup(data, "first_name"), true, partial, Some(FirstNameMaxLength), None);
      var last := Fields.CharField(Fields.Lookup(data, "last_name"), true, partial, Some(LastNameMaxLength), None);
      var n := Fields.Note("email", email) + Fields.Note("first_name", first) + Fields.Note("last_name", last);
      assert ("avatar", [NotAFile]) == (n + Fields.Note("avatar", AvatarInput(Fields.Lookup(data, "avatar"))))[|n|];
    }
  }

  /** What an accepted change carries: a free e-mail and names within their lengths. */
  lemma AcceptedChange(users: UserTable, u: CustomUser, data: map<string, Value>, partial: bool,
                       isEmail: string -> bool)
    ensures var r := ValidateProfile(users, u, data, partial, isEmail);
      r.Success? ==>
        && (r.value.email.Some? ==> !TakenByOther(users, u.id, r.value.email.value))
        && (r.value.firstName.Some? ==> |r.value.firstName.value| <= FirstNameMaxLength)
        && (r.value.lastName.Some? ==> |r.value.lastName.value| <= LastNameMaxLength)
  {
  }

  /**
   * An accepted change keeps the table's e-mails unique and the names
   * within their declared lengths.
   */
  lemma ProfileChangeKeepsTable(users: UserTable, u: CustomUser, data: map<string, Value>, partial: bool,
                                isEmail: string -> bool, now: nat)
    requires EmailsUnique(users) && u.id in users && users[u.id] == u
    requires NamesWithinBounds(u)
    ensures var r := ValidateProfile(users, u, data, partial, isEmail);
      r.Success? ==>
        var w := ApplyProfile(u, r.value, now);
        && EmailsUnique(users[u.id := w]) && NamesWithinBounds(w)
  {
    var r := ValidateProfile(users, u, data, partial, isEmail);
    if r.Success? {
      AcceptedChange(users, u, data, partial, isEmail);
      var w := ApplyProfile(u, r.value, now);
      StoreKeepsUnique(users, u.id, w);
    }
  }

  /** Replacing row `id` by `w` keeps e-mails unique when no other row has `w`'s e-mail. */
  lemma StoreKeepsUnique(users: UserTable, id: nat, w: CustomUser)
    requires EmailsUnique(users) && id in users
    requires users[id].email == w.email || !TakenByOther(users, id, w.email)
    ensures EmailsUnique(users[id := w])
  {
    var t := users[id := w];
    forall a, b | a in t && b in t && a != b ensures t[a].email != t[b].email {
      if a == id { assert b in users && b != id; }
      if b == id { assert a in users && a != id; }
    }
  }
}
