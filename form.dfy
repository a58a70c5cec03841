/** Values read from a request body with request.data.get(name): absent
    (None) or a string. Python's truthiness and `or` on such values. */
module Form {
  import opened Wrappers

  type Field = Option<string>

  /** bool(v): None and "" are false, every other string is true. */
  predicate Truthy(v: Field) { v.Some? && v.value != "" }

  /** Python's `a or b`: a when a is truthy, otherwise b. */
  function Or(a: Field, b: Field): (r: Field)
    ensures Truthy(a) ==> r == a
    ensures !Truthy(a) ==> r == b
    ensures Truthy(r) <==> Truthy(a) || Truthy(b)
  {
    if Truthy(a) then a else b
  }

  /** The text an f-string gives an optional field: the string itself, or
      "None". */
  function Render(v: Field): (r: string)
    ensures v.Some? ==> r == v.value
    ensures v.None? ==> r == "None"
  {
    match v
    case Some(s) => s
    case None => "None"
  }
}
