/** The JavaScript values the framework's cells hold, and the coercions the
    framework applies to them. */
module JsValues {

  /** `null`/`undefined` versus a present value. */
  datatype Option<+T> = None | Some(value: T)

  /** The values a property may hold: attribute strings, booleans driving a
      conditional renderer, arrays driving a list renderer. Numbers are
      modelled as integers. */
  datatype Value =
    | Undefined
    | Null
    | Bool(b: bool)
    | Num(n: int)
    | Str(s: string)
    | Arr(items: seq<Value>)

  /** `Boolean(v)`: the ECMAScript ToBoolean coercion. */
  predicate Truthy(v: Value) {
    match v
    case Undefined => false
    case Null => false
    case Bool(b) => b
    case Num(n) => n != 0
    case Str(s) => s != ""
    case Arr(_) => true
  }
}
