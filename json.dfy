/**
 * The data that crosses the HTTP boundary: request bodies as parsed JSON
 * (`Value`, without nested objects or floats), response bodies (`Json`), the
 * `{field: [messages]}` shape of serializer errors, and the responses the
 * views return.
 */
module JsonValues {
  import opened Wrappers
  import Decimal

  /** A value in a request body. */
  datatype Value =
    | VNull
    | VBool(b: bool)
    | VInt(i: int)
    | VStr(s: string)
    | VList(items: seq<Value>)

  /** A request body: normally an object, but any JSON value may arrive. */
  datatype Body = Object(fields: map<string, Value>) | Other(value: Value)

  /** A response body; an object lists its members in the serializer's field order. */
  datatype Json =
    | JNull
    | JBool(b: bool)
    | JInt(i: int)
    | JStr(s: string)
    | JArr(items: seq<Json>)
    | JObj(members: seq<(string, Json)>)

  /** Python's `type(v).__name__` for the parsed value. */
  function TypeName(v: Value): string
  {
    match v
    case VNull => "NoneType"
    case VBool(_) => "bool"
    case VInt(_) => "int"
    case VStr(_) => "str"
    case VList(_) => "list"
  }

  /** Python's `repr`, with strings quoted as `'…'` (escapes are not modelled). */
  function Repr(v: Value): string
  {
    match v
    case VNull => "None"
    case VBool(b) => if b then "True" else "False"
    case VInt(i) => Decimal.IntToString(i)
    case VStr(s) => "'" + s + "'"
    case VList(items) => "[" + ReprItems(items) + "]"
  }

  function ReprItems(items: seq<Value>): string
    decreases items
  {
    if items == [] then ""
    else if |items| == 1 then Repr(items[0])
    else Repr(items[0]) + ", " + ReprItems(items[1..])
  }

  /** Python's `str(v)`: a string is itself, anything else its `repr`. */
  function Str(v: Value): string
  {
    if v.VStr? then v.s else Repr(v)
  }

  /** The member names of an object, in order. */
  function Keys(members: seq<(string, Json)>): (ks: seq<string>)
    ensures |ks| == |members| && forall i | 0 <= i < |members| :: ks[i] == members[i].0
  {
    seq(|members|, i requires 0 <= i < |members| => members[i].0)
  }

  /** The object whose members are `names` paired, in order, with `values`. */
  function Record(names: seq<string>, values: seq<Json>): (j: Json)
    requires |names| == |values|
    ensures j.JObj? && |j.members| == |names| && Keys(j.members) == names
    ensures forall i | 0 <= i < |names| :: j.members[i] == (names[i], values[i])
  {
    JObj(seq(|names|, i requires 0 <= i < |names| => (names[i], values[i])))
  }

  /** The value of the first member called `k`. */
  function Get(members: seq<(string, Json)>, k: string): (r: Option<Json>)
    ensures r.Some? <==> k in Keys(members)
  {
    if members == [] then None
    else if members[0].0 == k then Some(members[0].1)
    else Get(members[1..], k)
  }

  /** Serializer errors: each failing field, or "non_field_errors", with its messages, in field order. */
  type Errors = seq<(string, seq<string>)>

  const NonFieldErrors: string := "non_field_errors"

  function Strings(msgs: seq<string>): Json
  {
    JArr(seq(|msgs|, i requires 0 <= i < |msgs| => JStr(msgs[i])))
  }

  function ErrorsJson(e: Errors): Json
  {
    JObj(seq(|e|, i requires 0 <= i < |e| => (e[i].0, Strings(e[i].1))))
  }

  /** What a view hands back: a DRF response, or an exception nobody handles (a 500 page). */
  datatype Response =
    | Reply(status: nat, body: Json)
    | Unhandled(exception: string)

  const InternalServerError: nat := 500

  function StatusOf(r: Response): nat
  {
    match r
    case Reply(status, _) => status
    case Unhandled(_) => InternalServerError
  }
}
