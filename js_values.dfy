/** The few JavaScript notions the form engine depends on: `undefined`,
    truthiness and the `||` operator. */
module JsValues {

  datatype Option<+T> = None | Some(value: T)

  /** A JavaScript value, as far as the form engine tells values apart.
      Numbers are integers here (no NaN, no fractions). */
  datatype Val =
    | Undefined
    | Null
    | Bool(b: bool)
    | Num(n: int)
    | Str(s: string)

  /** JavaScript truthiness: `undefined`, `null`, `false`, `0` and `''` are falsy. */
  predicate Truthy(v: Val)
  {
    match v
    case Undefined => false
    case Null => false
    case Bool(b) => b
    case Num(n) => n != 0
    case Str(s) => s != ""
  }

  /** `a || b` */
  function Or(a: Val, b: Val): Val
  {
    if Truthy(a) then a else b
  }

  /** `m[k]` on a plain object: an absent key reads as `undefined`. */
  function Get(m: map<string, Val>, k: string): Val
  {
    if k in m then m[k] else Undefined
  }
}
