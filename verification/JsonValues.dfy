/** JSON values as `json.loads` builds them, with Python's truthiness, equality and `dict.get`. */
module JsonValues {
  import opened Wrappers

  datatype Json =
    | Null
    | Bool(b: bool)
    | Int(i: int)
    | Float(r: real)
    | Text(s: string)
    | List(items: seq<Json>)
    | Obj(fields: map<string, Json>)

  const EMPTY_OBJECT := Obj(map[])

  predicate Truthy(v: Json) {
    match v
    case Null => false
    case Bool(b) => b
    case Int(i) => i != 0
    case Float(r) => r != 0.0
    case Text(s) => s != ""
    case List(items) => items != []
    case Obj(fields) => fields != map[]
  }

  /** `v.get(key, default)` */
  function GetOr(v: Json, key: string, default: Json): Json {
    if v.Obj? && key in v.fields then v.fields[key] else default
  }

  /** `v.get(key)` */
  function Get(v: Json, key: string): Json {
    GetOr(v, key, Null)
  }

  function TextOf(v: Json): Option<string> {
    if v.Text? then Some(v.s) else None
  }

  /** `v or []` for a list-valued field. */
  function ItemsOf(v: Json): seq<Json> {
    if v.List? then v.items else []
  }

  /** The representative under Python's `==`, where `True == 1 == 1.0`. */
  function Normal(v: Json): Json {
    match v
    case Bool(b) => Float(if b then 1.0 else 0.0)
    case Int(i) => Float(i as real)
    case List(items) => List(seq(|items|, i requires 0 <= i < |items| => Normal(items[i])))
    case Obj(fields) => Obj(map k | k in fields :: Normal(fields[k]))
    case _ => v
  }

  /** Python's `a == b` on JSON values. */
  predicate PyEqual(a: Json, b: Json) {
    Normal(a) == Normal(b)
  }
}
