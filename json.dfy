/** The JSON-like values the scrapers keep in their dictionaries, with Python truthiness. */
module Json {
  datatype Value = Null | Bool(b: bool) | Int(i: int) | Str(s: string) | List(items: seq<Value>)

  /** Python's `bool(v)`: None, False, 0, "" and [] are falsy. */
  predicate Truthy(v: Value)
  {
    match v
    case Null => false
    case Bool(b) => b
    case Int(i) => i != 0
    case Str(s) => s != ""
    case List(items) => items != []
  }
}
