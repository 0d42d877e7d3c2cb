/** JSON values as `json.loads` returns them, Python's dictionary-key semantics for the
    values used as `_pending` keys, and the serializer/parser pair the client uses. */
module JsonData {
  import opened Wrappers
  import opened Text

  /** A decoded JSON document. Numbers are integers (floating point is not modelled);
      an object is a `dict` from string keys. */
  datatype Json =
    | JNull
    | JBool(b: bool)
    | JInt(i: int)
    | JStr(s: string)
    | JArr(items: seq<Json>)
    | JObj(fields: map<string, Json>)

  /** A hashable value as a dictionary key, after Python's key equality: `True == 1`,
      `False == 0`. */
  datatype Key = KNull | KInt(n: int) | KStr(s: string)

  /** The key a value stands for in a `dict`; `None` for an unhashable value (a list
      or a dict), where indexing raises `TypeError`. */
  function KeyOf(v: Json): (k: Option<Key>)
    ensures k.None? <==> (v.JArr? || v.JObj?)
    ensures v.JInt? ==> k == Some(KInt(v.i))
    ensures v.JStr? ==> k == Some(KStr(v.s))
  {
    match v
    case JNull => Some(KNull)
    case JBool(b) => Some(KInt(if b then 1 else 0))
    case JInt(i) => Some(KInt(i))
    case JStr(s) => Some(KStr(s))
    case JArr(_) => None
    case JObj(_) => None
  }

  /** `v[name]` on a value: `None` where Python raises `KeyError` or `TypeError`. */
  function Lookup(v: Json, name: string): (r: Option<Json>)
    ensures r.Some? <==> v.JObj? && name in v.fields
  {
    if v.JObj? && name in v.fields then Some(v.fields[name]) else None
  }

  /** `bool(v)`: empty containers, zero, `False` and `None` are false. */
  predicate Truthy(v: Json) {
    match v
    case JNull => false
    case JBool(b) => b
    case JInt(i) => i != 0
    case JStr(s) => s != ""
    case JArr(items) => items != []
    case JObj(fields) => fields != map[]
  }

  /** `json.dumps` and `json.loads`, taken as given. */
  datatype Codec = Codec(dumps: Json -> string, loads: seq<byte> -> Option<Json>)

  /** `sys.maxsize + 1` on a 64-bit build: no Python string is this long, and no length
      passed to a C `ssize_t` may reach it. */
  const MaxSize: int := 0x8000_0000_0000_0000

  /** What the client relies on: `json.dumps` with its default `ensure_ascii=True` writes
      ASCII only, its output is a Python string and so shorter than `MaxSize`, and
      `json.loads` reads its UTF-8 encoding back to the same value. */
  ghost predicate ValidCodec(c: Codec) {
    forall m :: AllAscii(c.dumps(m)) && |c.dumps(m)| < MaxSize && c.loads(Utf8(c.dumps(m))) == Some(m)
  }
}
