/** JSON values as the mining server's API returns them, and the few
    Python conversions the integration applies to them. */
module Json {

  datatype Option<+T> = None | Some(value: T)

  /** A decoded JSON value. `Null` is Python's `None`, which is also what
      `dict.get` yields for a missing key. JSON integers and floats are
      both `Num`. */
  datatype Json =
    | Null
    | Bool(b: bool)
    | Num(x: real)
    | Str(s: string)
    | Arr(items: seq<Json>)
    | Obj(fields: map<string, Json>)

  /** Python's `float(s)` on a string: the number it denotes, or `None`
      where Python raises `ValueError`. The parser itself is not part of
      the model; every function that needs it takes it as a parameter. */
  type FloatParser = string -> Option<real>

  /** `d.get(key)`: the value under `key`, `None` when the key is absent. */
  function Get(d: map<string, Json>, key: string): Json
  {
    if key in d then d[key] else Null
  }

  /** Python's `float(v)`; `None` where Python raises `ValueError` or
      `TypeError` (for `None`, lists and dicts). `float(True)` is 1.0. */
  function ToFloat(v: Json, parse: FloatParser): (r: Option<real>)
    ensures v.Num? ==> r == Some(v.x)
    ensures v.Str? ==> r == parse(v.s)
    ensures v.Null? || v.Arr? || v.Obj? ==> r.None?
  {
    match v
    case Num(x) => Some(x)
    case Bool(b) => Some(if b then 1.0 else 0.0)
    case Str(s) => parse(s)
    case _ => None
  }
}
