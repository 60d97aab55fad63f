/** The parsed form body of a POST request and the handler's `get` helper. */
module Form {
  import opened Text

  /** A form as `parse_qs` returns it: every key maps to the non-empty list
      of its values, in body order. */
  type Form = m: map<string, seq<string>> | forall k :: k in m ==> m[k] != []
    witness map[]

  /** `get(name)`: the first value sent for `name`, stripped of surrounding
      whitespace, or `""` when the field was not sent. */
  function Get(form: Form, name: string): (r: string)
    ensures name !in form ==> r == ""
    ensures name in form ==> r == Strip(form[name][0])
    ensures r == [] || (!IsSpace(r[0]) && !IsSpace(r[|r| - 1]))
  {
    if name in form then Strip(form[name][0]) else ""
  }
}
