/** The JavaScript values a caller may pass where the source expects a query or an option,
    and the two things the source asks of them: truthiness and a `length`. */
module Js {
  import opened Wrappers

  /** A JavaScript value. Numbers are whole numbers here; `Obj` is any non-array object. */
  datatype Value = Undefined | Null | Bool(b: bool) | Num(n: int) | Str(s: string) | Obj

  /** JavaScript truthiness: `undefined`, `null`, `false`, `0` and `""` are falsy. */
  predicate Truthy(v: Value)
  {
    match v
    case Undefined => false
    case Null => false
    case Bool(b) => b
    case Num(n) => n != 0
    case Str(s) => s != ""
    case Obj => true
  }

  /** The `length` property: only strings have one among the values modelled. */
  function Length(v: Value): (r: Option<int>)
    ensures r.Some? <==> v.Str?
    ensures v.Str? ==> r.value == |v.s|
  {
    match v
    case Str(s) => Some(|s|)
    case _ => None
  }
}
