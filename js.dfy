/** JavaScript values as far as the client inspects them: JSON data, `undefined`
    (the absence of a value, `None`), truthiness and property access. */
module Js {

  datatype Option<+T> = None | Some(value: T)

  /** A JSON value. `undefined` is not a value here: it is `None` of an `Option<Value>`. */
  datatype Value =
    | Null
    | Bool(b: bool)
    | Num(n: real)
    | Str(s: string)
    | Arr(items: seq<Value>)
    | Obj(fields: map<string, Value>)

  /** The result of reading `v.key`: the property (possibly `undefined`), or a TypeError. */
  datatype Access = Found(v: Option<Value>) | TypeError

  /** Property access `v.key`: reading a property of `undefined` or `null` throws;
      an object yields its field or `undefined`; any other value has no such field. */
  function Member(v: Option<Value>, key: string): Access
  {
    match v
    case None => TypeError
    case Some(Null) => TypeError
    case Some(Obj(f)) => Found(if key in f then Some(f[key]) else None)
    case Some(_) => Found(None)
  }

  /** `o.key` on an object held as a map of its defined fields. */
  function Field(o: map<string, Value>, key: string): Option<Value>
  {
    if key in o then Some(o[key]) else None
  }

  /** `o.key = v`; assigning `undefined` leaves no defined field behind. */
  function Assign(o: map<string, Value>, key: string, v: Option<Value>): map<string, Value>
  {
    match v
    case None => o - {key}
    case Some(x) => o[key := x]
  }

  /** JavaScript truthiness (NaN is not modelled). */
  predicate Truthy(v: Option<Value>)
  {
    match v
    case None => false
    case Some(Null) => false
    case Some(Bool(b)) => b
    case Some(Num(n)) => n != 0.0
    case Some(Str(s)) => s != ""
    case Some(_) => true
  }
}
