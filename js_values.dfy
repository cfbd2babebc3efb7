/** Option and Result, the failure-carrying wrappers used throughout the model. */
module Wrappers {

  datatype Option<+T> = None | Some(value: T)

  /** A computation that either returns a value or throws an error. */
  datatype Result<+T, +E> = Ok(value: T) | Err(error: E)
}

/**
 * The part of JavaScript's value space the pagination code touches: the
 * primitive values a record field or an argument can hold, and plain objects
 * as maps from property names to values.  Numbers are integers here.
 */
module JsValues {

  datatype Value =
    | Undefined
    | Null
    | Bool(b: bool)
    | Num(n: int)
    | Str(s: string)
    | Obj(props: map<string, Value>)

  /** A plain object: its own enumerable properties. */
  type Object = map<string, Value>

  /** The values `if (v)` treats as false (NaN, -0 and 0n are not representable here). */
  predicate Falsy(v: Value) {
    v == Undefined || v == Null || v == Bool(false) || v == Num(0) || v == Str("")
  }

  predicate Truthy(v: Value) {
    !Falsy(v)
  }

  /** The values `a ?? b` replaces by `b`. */
  predicate Nullish(v: Value) {
    v == Undefined || v == Null
  }

  /** Property read `obj[k]`; a missing own property reads as undefined. */
  function Get(obj: Object, k: string): Value {
    if k in obj then obj[k] else Undefined
  }

  function Digit(d: nat): char
    requires d < 10
  {
    "0123456789"[d]
  }

  /** The decimal form `String(n)` gives a non-negative integer. */
  function NatToString(n: nat): string
    decreases n
  {
    if n < 10 then [Digit(n)] else NatToString(n / 10) + [Digit(n % 10)]
  }

  /** The decimal form `String(n)` gives an integer. */
  function IntToString(i: int): string {
    if i < 0 then "-" + NatToString(-i) else NatToString(i)
  }

  /** The property name a value stands for in `o[v]` and `{[v]: x}` (ToPropertyKey). */
  function PropertyKey(v: Value): string {
    match v
    case Undefined => "undefined"
    case Null => "null"
    case Bool(b) => if b then "true" else "false"
    case Num(n) => IntToString(n)
    case Str(s) => s
    case Obj(_) => "[object Object]"
  }
}
