/** The few Python runtime notions the pydst core depends on: dynamically
    typed values, their truthiness, and the exceptions the core raises. */
module Py {

  /** A Python value of one of the kinds the core inspects. */
  datatype Value =
    | NoneValue
    | Bool(b: bool)
    | Int(i: int)
    | Str(s: string)
    | List(items: seq<Value>)

  /** `bool(v)`: None, False, 0, "" and [] are falsy, everything else truthy. */
  predicate Truthy(v: Value)
  {
    match v
    case NoneValue => false
    case Bool(b) => b
    case Int(i) => i != 0
    case Str(s) => s != ""
    case List(items) => items != []
  }

  /** True when every element of a list is a `str`. */
  predicate AllStrs(items: seq<Value>)
  {
    forall k :: 0 <= k < |items| ==> items[k].Str?
  }

  /** The strings held by a list of `str` values. */
  function Strs(items: seq<Value>): (r: seq<string>)
    requires AllStrs(items)
    ensures |r| == |items|
    ensures forall k :: 0 <= k < |items| ==> items[k] == Str(r[k])
  {
    seq(|items|, k requires 0 <= k < |items| => items[k].s)
  }

  /** A Python list of `str` values. */
  function StrValues(ss: seq<string>): (r: seq<Value>)
    ensures AllStrs(r) && Strs(r) == ss
  {
    seq(|ss|, k requires 0 <= k < |ss| => Str(ss[k]))
  }

  /** The exceptions the core raises, with the payload that identifies them. */
  datatype Error =
    | ValueError(message: string)
    | TypeError(message: string)
      /** `requests.HTTPError` from `raise_for_status`, with the response's reason. */
    | HttpError(status: int, reason: Value)
      /** `r.json()` on a body that is not JSON. */
    | JsonDecodeError
      /** `.get` called on a decoded JSON document that is not an object. */
    | AttributeError

  /** Either the value a call returns or the exception it raises. */
  datatype Result<+T> = Ok(value: T) | Err(error: Error)

  datatype Option<+T> = None | Some(value: T)
}
