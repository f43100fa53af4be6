/** JSON values as `json.load` produces them, with the two Python idioms the
    importer relies on: truthiness (`if not x`) and `dict.get(key, default)`.
    A JSON `null` is Python's `None`. Objects are maps: `json.load` keeps the
    last of duplicate keys, and key order is never observed by the importer. */
module Json {
  import opened Wrappers

  datatype JValue =
    | JNull
    | JBool(b: bool)
    | JNum(n: real)
    | JStr(s: string)
    | JArr(items: seq<JValue>)
    | JObj(fields: map<string, JValue>)

  /** Python truthiness of the decoded value. */
  predicate Truthy(v: JValue)
  {
    match v
    case JNull => false
    case JBool(b) => b
    case JNum(n) => n != 0.0
    case JStr(s) => |s| > 0
    case JArr(items) => |items| > 0
    case JObj(fields) => |fields| > 0
  }

  /** `o.get(k)` on a dict: the value, or `None` (JNull) when the key is absent. */
  function Get(o: JValue, k: string): (r: JValue)
    requires o.JObj?
    ensures k !in o.fields ==> r == JNull
    ensures k in o.fields ==> r == o.fields[k]
  {
    if k in o.fields then o.fields[k] else JNull
  }

  /** `o.get(k, None) is not None`: the key is there and not null. */
  predicate Present(o: JValue, k: string)
  {
    o.JObj? && k in o.fields && !o.fields[k].JNull?
  }

  /** The key holds a number (Python would also accept a bool here; the
      model asks for a number). */
  predicate HasNum(o: JValue, k: string)
  {
    o.JObj? && k in o.fields && o.fields[k].JNum?
  }

  function Num(o: JValue, k: string): real
    requires HasNum(o, k)
  {
    o.fields[k].n
  }

  /** `o.get(k, d)` for a numeric field: the default only when the key is absent. */
  predicate NumOrAbsent(o: JValue, k: string)
  {
    o.JObj? && (k in o.fields ==> o.fields[k].JNum?)
  }

  function NumOr(o: JValue, k: string, d: real): (r: real)
    requires NumOrAbsent(o, k)
    ensures k !in o.fields ==> r == d
  {
    if k in o.fields then o.fields[k].n else d
  }

  /** The string a key holds, if it holds one. */
  function StrAt(o: JValue, k: string): Option<string>
  {
    if o.JObj? && k in o.fields && o.fields[k].JStr? then Some(o.fields[k].s) else None
  }
}
