/**
 * The request-field checks of the REST framework that the serializers of
 * this project rely on: presence, null, blank, the string coercion and
 * trimming of `CharField`, its length and null-character validators, the
 * e-mail check, `ChoiceField`, and primary-key relations (single and many).
 * Each returns the validated value, nothing (the field is skipped), or its
 * list of messages.
 */
module Fields {
  import opened Wrappers
  import opened JsonValues
  import Text
  import Decimal

  const Required: string := "This field is required."
  const MayNotBeNull: string := "This field may not be null."
  /** What `Serializer.errors` shows for a `null` request body. */
  const NoDataProvided: string := "No data provided"
  const MayNotBeBlank: string := "This field may not be blank."
  const NotAString: string := "Not a valid string."
  const NullCharacters: string := "Null characters are not allowed."
  const InvalidEmail: string := "Enter a valid email address."
  const NullChar: char := '\0'

  function MaxLengthMessage(n: nat): string
  {
    "Ensure this field has no more than " + Decimal.IntToString(n) + " characters."
  }

  function MinLengthMessage(n: nat): string
  {
    "Ensure this field has at least " + Decimal.IntToString(n) + " characters."
  }

  function InvalidChoiceMessage(input: Value): string
  {
    "\"" + Str(input) + "\" is not a valid choice."
  }

  function DoesNotExistMessage(pk: Value): string
  {
    "Invalid pk \"" + Str(pk) + "\" - object does not exist."
  }

  function IncorrectTypeMessage(v: Value): string
  {
    "Incorrect type. Expected pk value, received " + TypeName(v) + "."
  }

  function NotAListMessage(v: Value): string
  {
    "Expected a list of items but got type \"" + TypeName(v) + "\"."
  }

  /** The message for a request body that is not an object. */
  function NotADictionaryMessage(v: Value): string
  {
    "Invalid data. Expected a dictionary, but got " + TypeName(v) + "."
  }

  /**
   * The messages a serializer's `errors` holds under `non_field_errors` for a
   * body that is not an object. A `null` body fails with code `null`, which
   * `Serializer.errors` rewrites to "No data provided".
   */
  function NotAnObjectMessages(v: Value): seq<string>
  {
    if v.VNull? then [NoDataProvided] else [NotADictionaryMessage(v)]
  }

  /** A field's result: skipped (absent and not needed), a value, or messages. */
  datatype Outcome<+T> = Omitted | Valid(value: T) | Invalid(messages: seq<string>)

  /** The input for one field name, if the body has it. */
  function Lookup(fields: map<string, Value>, k: string): Option<Value>
  {
    if k in fields then Some(fields[k]) else None
  }

  /** The validated value of a field, or nothing when it was skipped. */
  function ValueOf<T>(o: Outcome<T>): Option<T>
  {
    if o.Valid? then Some(o.value) else None
  }

  /** The errors of one field, under its name, when there are any. */
  function Note<T>(name: string, o: Outcome<T>): Errors
  {
    if o.Invalid? then [(name, o.messages)] else []
  }

  /** An absent field: skipped on a partial update or when it is optional, "required" otherwise. */
  function Absent<T>(required: bool, partial: bool): (r: Outcome<T>)
    ensures r.Omitted? <==> partial || !required
    ensures !r.Omitted? ==> r == Invalid([Required])
  {
    if !partial && required then Invalid([Required]) else Omitted
  }

  /** `CharField.run_validation` up to the validators: null, blank, coercion, trimming. */
  function TextValue(v: Value): (r: Outcome<string>)
    ensures r.Valid? <==> v.VInt? || (v.VStr? && Text.Strip(v.s) != [])
    ensures r.Valid? ==> r.value == Text.Strip(Str(v))
    ensures !r.Omitted?
  {
    if v.VNull? then Invalid([MayNotBeNull])
    else if v.VStr? && Text.Strip(v.s) == [] then Invalid([MayNotBeBlank])
    else if v.VBool? || v.VList? then Invalid([NotAString])
    else Valid(Text.Strip(Str(v)))
  }

  /** The validators `CharField` installs, in their order: maximum, minimum, null character. */
  function CharErrors(s: string, maxLength: Option<nat>, minLength: Option<nat>): (msgs: seq<string>)
    ensures msgs == [] <==>
      (maxLength.Some? ==> |s| <= maxLength.value) && (minLength.Some? ==> |s| >= minLength.value)
      && NullChar !in s
  {
    (if maxLength.Some? && |s| > maxLength.value then [MaxLengthMessage(maxLength.value)] else [])
    + (if minLength.Some? && |s| < minLength.value then [MinLengthMessage(minLength.value)] else [])
    + (if NullChar in s then [NullCharacters] else [])
  }

  function Collected(s: string, msgs: seq<string>): Outcome<string>
  {
    if msgs == [] then Valid(s) else Invalid(msgs)
  }

  /**
   * A `CharField` (trim on, blank not allowed): it yields the trimmed text
   * exactly when the input is a string or integer whose trimmed text is
   * non-blank, within the bounds and free of null characters.
   */
  function CharField(v: Option<Value>, required: bool, partial: bool, maxLength: Option<nat>,
                     minLength: Option<nat>): (r: Outcome<string>)
    ensures r.Omitted? <==> v.None? && (partial || !required)
    ensures r.Valid? <==>
      && v.Some? && TextValue(v.value).Valid?
      && var s := Text.Strip(Str(v.value));
         && (maxLength.Some? ==> |s| <= maxLength.value)
         && (minLength.Some? ==> |s| >= minLength.value)
         && NullChar !in s
    ensures r.Valid? ==> r.value == Text.Strip(Str(v.value)) && r.value != []
  {
    if v.None? then Absent(required, partial)
    else
      var t := TextValue(v.value);
      if t.Valid? then Collected(t.value, CharErrors(t.value, maxLength, minLength)) else t
  }

  /**
   * An `EmailField`: the `CharField` steps, then, in order, the uniqueness
   * check (when `taken` is given), the length and null-character validators
   * and the address check.
   */
  function EmailField(v: Option<Value>, required: bool, maxLength: Option<nat>,
                      taken: Option<string -> bool>, isEmail: string -> bool): (r: Outcome<string>)
    ensures r.Omitted? <==> v.None? && !required
    ensures r.Valid? <==>
      && v.Some? && TextValue(v.value).Valid?
      && var s := Text.Strip(Str(v.value));
         && (taken.Some? ==> !taken.value(s))
         && (maxLength.Some? ==> |s| <= maxLength.value)
         && NullChar !in s
         && isEmail(s)
    ensures r.Valid? ==> r.value == Text.Strip(Str(v.value)) && r.value != []
  {
    if v.None? then Absent(required, false)
    else
      var t := TextValue(v.value);
      if t.Valid? then
        Collected(t.value, (if taken.Some? && taken.value(t.value) then [UniqueMessage] else [])
                           + CharErrors(t.value, maxLength, None)
                           + (if isEmail(t.value) then [] else [InvalidEmail]))
      else t
  }

  /** A taken address is refused, the uniqueness message first. */
  lemma TakenEmailFirst(v: Option<Value>, required: bool, maxLength: Option<nat>,
                        taken: Option<string -> bool>, isEmail: string -> bool)
    requires v.Some? && TextValue(v.value).Valid? && taken.Some? && taken.value(Text.Strip(Str(v.value)))
    ensures var r := EmailField(v, required, maxLength, taken, isEmail);
      r.Invalid? && |r.messages| > 0 && r.messages[0] == UniqueMessage
  {
  }

  /** A text shorter than the minimum, with no maximum and no null character, gets the minimum-length message alone. */
  lemma TooShortRefused(v: Option<Value>, required: bool, partial: bool, minLength: nat)
    requires v.Some? && TextValue(v.value).Valid?
    requires var s := Text.Strip(Str(v.value)); |s| < minLength && NullChar !in s
    ensures CharField(v, required, partial, None, Some(minLength)) == Invalid([MinLengthMessage(minLength)])
  {
    var s := Text.Strip(Str(v.value));
    assert CharErrors(s, None, Some(minLength)) == [MinLengthMessage(minLength)];
  }

  /** The uniqueness message of the user model's e-mail column. */
  const UniqueMessage: string := "user with this email already exists."

  /** A `ChoiceField` (blank and null not allowed): `str(input)` must be one of the choices. */
  function ChoiceField(v: Option<Value>, choices: set<string>, required: bool, partial: bool)
    : (r: Outcome<string>)
    ensures r.Omitted? <==> v.None? && (partial || !required)
    ensures r.Valid? <==> v.Some? && !v.value.VNull? && Str(v.value) in choices
    ensures r.Valid? ==> r.value == Str(v.value)
  {
    if v.None? then Absent(required, partial)
    else if v.value.VNull? then Invalid([MayNotBeNull])
    else if Str(v.value) in choices then Valid(Str(v.value))
    else Invalid([InvalidChoiceMessage(v.value)])
  }

  /** `PrimaryKeyRelatedField.to_internal_value`: the lookup `pk=v` among `ids`. */
  function PkValue(v: Value, ids: set<nat>): (r: Outcome<nat>)
    ensures r.Valid? <==>
      || (v.VInt? && v.i >= 0 && v.i as nat in ids)
      || (v.VStr? && Decimal.ParseInt(v.s).Some? && Decimal.ParseInt(v.s).value >= 0
          && Decimal.ParseInt(v.s).value as nat in ids)
    ensures r.Valid? ==> r.value in ids
    ensures !r.Omitted?
  {
    match v
    case VInt(i) => if i >= 0 && i as nat in ids then Valid(i as nat) else Invalid([DoesNotExistMessage(v)])
    case VStr(s) =>
      (match Decimal.ParseInt(s)
       case None => Invalid([IncorrectTypeMessage(v)])
       case Some(i) => if i >= 0 && i as nat in ids then Valid(i as nat) else Invalid([DoesNotExistMessage(v)]))
    case VNull => Invalid([DoesNotExistMessage(v)])
    case _ => Invalid([IncorrectTypeMessage(v)])
  }

  /**
   * A nullable single relation: `null` clears it, and so does the empty
   * string, which `RelatedField.run_validation` turns into `null` first;
   * anything else must name a row.
   */
  function NullablePkField(v: Option<Value>, ids: set<nat>, required: bool, partial: bool)
    : (r: Outcome<Option<nat>>)
    ensures r.Omitted? <==> v.None? && (partial || !required)
    ensures r == Valid(None) <==> v == Some(VNull) || v == Some(VStr(""))
    ensures r.Valid? && r.value.Some? <==> v.Some? && PkValue(v.value, ids).Valid?
    ensures r.Valid? && r.value.Some? ==> r.value.value == PkValue(v.value, ids).value
  {
    if v.None? then Absent(required, partial)
    else if v.value.VNull? || v.value == VStr("") then Valid(None)
    else
      var k := PkValue(v.value, ids);
      if k.Valid? then Valid(Some(k.value)) else Invalid(k.messages)
  }

  /** The items of a many-relation, looked up in order; the first failure stops the list. */
  function PkItems(items: seq<Value>, ids: set<nat>): (r: Outcome<seq<nat>>)
    ensures !r.Omitted?
    ensures r.Valid? <==> forall i | 0 <= i < |items| :: PkValue(items[i], ids).Valid?
    ensures r.Valid? ==>
      && |r.value| == |items|
      && forall i | 0 <= i < |items| :: r.value[i] == PkValue(items[i], ids).value
  {
    if items == [] then Valid([])
    else
      var first := PkValue(items[0], ids);
      if !first.Valid? then Invalid(first.messages)
      else
        var rest := PkItems(items[1..], ids);
        if rest.Valid? then Valid([first.value] + rest.value)
        else
          assert !(forall i | 0 <= i < |items| :: PkValue(items[i], ids).Valid?) by {
            var j :| 0 <= j < |items[1..]| && !PkValue(items[1..][j], ids).Valid?;
            assert items[1..][j] == items[j + 1];
          }
          rest
  }

  /** A many-relation that may be empty and is never null: a list of primary keys. */
  function PkListField(v: Option<Value>, ids: set<nat>, required: bool, partial: bool)
    : (r: Outcome<seq<nat>>)
    ensures r.Omitted? <==> v.None? && (partial || !required)
    ensures r.Valid? <==> v.Some? && v.value.VList? && PkItems(v.value.items, ids).Valid?
    ensures r.Valid? ==> forall k | k in r.value :: k in ids
  {
    if v.None? then Absent(required, partial)
    else
      match v.value
      case VNull => Invalid([MayNotBeNull])
      case VList(items) => PkItems(items, ids)
      case _ => Invalid([NotAListMessage(v.value)])
  }
}
