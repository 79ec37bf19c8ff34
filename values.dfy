/** The values a port can hold, and the JavaScript coercions that the node
    catalogue applies to them.

    Port values in the source are whatever the widgets and the nodes store:
    `null`, strings and numbers. Numbers are modelled as reals (no NaN, no
    infinities, no rounding). The coercions that the browser implements
    (`String(x)` for a number, `Number(s)`, `parseFloat(s)`, `btoa`, `atob`)
    are not part of the repository; they are the fields of an `Env` that is
    passed in, and a field returning `None` stands for NaN or for a thrown
    exception. */
module Values {
  import opened Wrappers

  datatype Value = Null | Str(s: string) | Num(r: real)

  /** The browser built-ins the nodes call. */
  datatype Env = Env(
    numberToString: real -> string,      // String(x) for a number x
    toNumber: string -> Option<real>,    // Number(s); None is NaN
    parseFloat: string -> Option<real>,  // Number.parseFloat(s); None is NaN
    btoa: string -> Option<string>,      // None: btoa throws
    atob: string -> Option<string>)      // None: atob throws

  /** JavaScript truthiness restricted to the values a port can hold. */
  predicate Truthy(v: Value) {
    match v
    case Null => false
    case Str(s) => s != ""
    case Num(r) => r != 0.0
  }

  /** The expression `v || d`. */
  function Or(v: Value, d: Value): Value {
    if Truthy(v) then v else d
  }

  /** `String(v)`. */
  function ToJsString(env: Env, v: Value): string {
    match v
    case Null => "null"
    case Str(s) => s
    case Num(r) => env.numberToString(r)
  }

  /** `Number(v)`; `None` is NaN. `Number(null)` is 0. */
  function ToNumber(env: Env, v: Value): Option<real> {
    match v
    case Null => Some(0.0)
    case Str(s) => env.toNumber(s)
    case Num(r) => Some(r)
  }

  /** `Number.parseFloat(v)`, which first converts `v` to a string:
      `parseFloat("null")` is NaN and a number parses back to itself. */
  function ParseFloat(env: Env, v: Value): Option<real> {
    match v
    case Null => None
    case Str(s) => env.parseFloat(s)
    case Num(r) => Some(r)
  }

  /** `Number.isInteger(v)`: true only of numbers, with no coercion. */
  predicate IsInteger(v: Value) {
    v.Num? && v.r.Floor as real == v.r
  }
}
