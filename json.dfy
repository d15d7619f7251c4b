/** JSON values as Python's `json` module hands them to app.py, and the two
    dictionary-level operations app.py applies to them: `dict.get` with a
    default and Python truthiness (`if not x`). */
module PyJson {

  /** A decoded JSON document. `bool` is kept apart from `Int` because Python
      treats `True`/`False` as the integers 1/0 in `isinstance` and `int()`,
      which the score mapping relies on. A `Float` holds the exact value of
      the binary64 number `json` decoded, as a real. */
  datatype Json =
    | Null
    | Bool(b: bool)
    | Int(i: int)
    | Float(f: real)
    | Str(s: string)
    | Arr(items: seq<Json>)
    | Obj(fields: map<string, Json>)

  /** The empty object `{}`, the default app.py passes to `dict.get`. */
  const EmptyObj: Json := Obj(map[])

  /** `m.get(key, default)` on a Python dict. */
  function Get(m: map<string, Json>, key: string, default: Json): Json
  {
    if key in m then m[key] else default
  }

  /** Python's `bool(v)`: `None`, `False`, zero, and empty strings, lists and
      dicts are false; everything else is true. */
  predicate Truthy(v: Json)
  {
    match v
    case Null => false
    case Bool(b) => b
    case Int(i) => i != 0
    case Float(f) => f != 0.0
    case Str(s) => s != ""
    case Arr(a) => a != []
    case Obj(m) => m != map[]
  }
}
