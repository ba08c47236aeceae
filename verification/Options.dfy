/** JavaScript's `undefined` (and `null`) as a value: a field, query
    parameter or array element that may be absent. */
module Options {

  datatype Option<+T> = None | Some(value: T)

  /** `xs?.[i]` over an array that may itself be absent and whose elements
      may be `null`. */
  function At<T>(xs: Option<seq<Option<T>>>, i: nat): (r: Option<T>)
    ensures r.Some? <==> xs.Some? && i < |xs.value| && xs.value[i].Some?
    ensures r.Some? ==> r == xs.value[i]
  {
    match xs
    case None => None
    case Some(s) => if i < |s| then s[i] else None
  }
}
