/** A JavaScript value as the access-control package can observe it: own properties only. */
module JsValue {
  datatype Prim =
    | Number(value: real)
    | NaN
    | Infinite(negative: bool)
    | Text(text: string)
    | Boolean(truth: bool)

  /**
   `Throws` is a property whose read throws; `Opaque` a function, symbol or bigint. `Hole` stands in arrays only, where
   an index holds nothing: it counts in the length, and `forEach`, `map`, `some` and `every` pass over it.
   */
  datatype Value =
    | Undefined
    | Null
    | Scalar(prim: Prim)
    | List(items: seq<Value>, own: map<string, Value>)
    | Record(own: map<string, Value>)
    | Opaque
    | Throws
    | Hole

  predicate IsFinite(p: Prim) {
    !p.NaN? && !p.Infinite?
  }

  /** `===` on primitives. */
  predicate StrictlyEqual(a: Prim, b: Prim) {
    a == b && !a.NaN?
  }

  /** `<` on two numbers. */
  predicate NumberLess(a: Prim, b: Prim) {
    match (a, b)
    case (Number(x), Number(y)) => x < y
    case (Infinite(negative), Number(_)) => negative
    case (Number(_), Infinite(negative)) => !negative
    case (Infinite(x), Infinite(y)) => x && !y
    case _ => false
  }

  /** `<` on two strings: by code units. */
  predicate TextLess(a: string, b: string) {
    if b == "" then false
    else if a == "" then true
    else a[0] < b[0] || (a[0] == b[0] && TextLess(a[1..], b[1..]))
  }

  predicate IsNumber(p: Prim) {
    p.Number? || p.NaN? || p.Infinite?
  }

  /** `String.split` on one separator character. */
  function Split(s: string, separator: char): (parts: seq<string>)
    ensures parts != []
  {
    if s == "" then [""]
    else
      var rest := Split(s[1..], separator);
      if s[0] == separator then [""] + rest else [[s[0]] + rest[0]] + rest[1..]
  }
}
