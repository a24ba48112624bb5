/**
 The few JavaScript value rules the listing reconciliation depends on: a
 string-typed field of a parsed JSON object may be absent, `null` or a
 string; a template literal renders each of them as text; and `!x` treats
 absent, `null` and the empty string alike as "missing".
 */
module JsValue {

  datatype Option<T> = None | Some(value: T)

  /** A string-typed field of a parsed JSON object. */
  datatype Field = Missing | Null | Str(s: string)

  /** The text `${f}` produces inside a template literal. */
  function Render(f: Field): (r: string)
    ensures !f.Str? ==> r != "" && '-' !in r
  {
    match f
    case Missing => "undefined"
    case Null => "null"
    case Str(s) => s
  }

  /** JavaScript truthiness of the field: only a non-empty string is truthy. */
  predicate Truthy(f: Field)
    ensures !Truthy(f) <==> f == Missing || f == Null || f == Str("")
  {
    f.Str? && f.s != ""
  }
}
