/** The slice of JavaScript semantics the middleware relies on: optional and
    failing values, plain JSON-like values, truthiness, and thrown errors. */
module Js {

  /** `None` stands for a property that is `undefined`. */
  datatype Option<+T> = None | Some(value: T)

  /** A computation that either yields a value or throws (for an async
      function: a promise that resolves or rejects). */
  datatype Result<+T, +E> = Success(value: T) | Failure(error: E)

  /** The values that travel through requests, records and responses.
      Numbers are integers: fractional numbers and NaN are not modelled. */
  datatype JsValue =
    | Undefined
    | Null
    | Bool(b: bool)
    | Number(n: int)
    | Str(s: string)
    | Array(items: seq<JsValue>)
    | Object(fields: map<string, JsValue>)

  /** What the JavaScript runtime throws. */
  datatype JsError =
    | TypeError(message: string)
    | Error(message: string)

  /** JavaScript truthiness: `undefined`, `null`, `false`, `0` and `""` are
      falsy, every array and object is truthy. */
  predicate Truthy(v: JsValue)
  {
    match v
    case Undefined => false
    case Null => false
    case Bool(b) => b
    case Number(n) => n != 0
    case Str(s) => s != ""
    case Array(_) => true
    case Object(_) => true
  }

  /** The falsy values are exactly the five primitive ones: `undefined`,
      `null`, `false`, `0` and the empty string. */
  lemma FalsyValues(v: JsValue)
    ensures !Truthy(v) <==> v == Undefined || v == Null || v == Bool(false) || v == Number(0) || v == Str("")
  {
  }
}
