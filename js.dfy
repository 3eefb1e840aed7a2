/** The slice of JavaScript runtime semantics the backend relies on: the values that JSON
    payloads, JWT claims and request fields can hold, truthiness (`if (!x)`), property
    access with optional chaining (`x?.k`), and what a `catch` clause receives. */
module Js {

  datatype Option<+T> = None | Some(value: T)

  /** A JavaScript value as it can appear in a decoded JWT, on `req` or in a JSON body.
      `Undefined` also stands for a property that is absent: `JSON.stringify` omits such
      properties, so a client never sees them. Numbers are kept as reals (JSON has no NaN). */
  datatype Value =
    | Undefined
    | Null
    | Bool(b: bool)
    | Num(n: real)
    | Str(s: string)
    | Arr(elems: seq<Value>)
    | Obj(fields: map<string, Value>)

  /** JavaScript truthiness: `undefined`, `null`, `false`, `0` and `""` are falsy;
      every array and every object is truthy. */
  predicate Truthy(v: Value)
  {
    match v
    case Undefined => false
    case Null => false
    case Bool(b) => b
    case Num(n) => n != 0.0
    case Str(s) => s != ""
    case Arr(_) => true
    case Obj(_) => true
  }

  /** `v?.k`: a missing property and every property of a nullish value is `undefined`.
      Primitives and arrays carry none of the claim names used here as own properties. */
  function Member(v: Value, k: string): Value
  {
    match v
    case Obj(m) => if k in m then m[k] else Undefined
    case _ => Undefined
  }

  /** An object whose prototype chain contains `Error`: `name` and `message` are its own. */
  datatype ErrorObject = ErrorObject(name: string, message: string)

  /** What a `throw` hands to the nearest `catch`: an `Error` or any other value. */
  datatype Thrown = Raise(err: ErrorObject) | RaiseValue(v: Value)

  /** `e instanceof Error ? e.message : fallback`, the idiom both `catch` clauses use. */
  function MessageOr(t: Thrown, fallback: string): string
  {
    match t
    case Raise(e) => e.message
    case RaiseValue(_) => fallback
  }

  /** A thrown `Error` gives its own message; any other thrown value gives the fallback. */
  lemma MessageOrCases(e: ErrorObject, v: Value, fallback: string)
    ensures MessageOr(Raise(e), fallback) == e.message
    ensures MessageOr(RaiseValue(v), fallback) == fallback
  {
  }
}
