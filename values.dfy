/** The Python values the walks build and return. */
module Values {
  import opened Remote
  import opened Dicts

  /** A list of strings, a dict with string keys (in insertion order), or
      the `ApiError.error` object a caught listing failure returns. */
  datatype PyVal =
    | PyList(elems: seq<string>)
    | PyDict(pairs: seq<Binding<PyVal>>)
    | PyErr(error: ApiError)

  /** The pairs of a dict whose values are Python values, in insertion order. */
  type Items = seq<Binding<PyVal>>

  /** How a call ends: it returns a value, or a TypeError escapes it. Only
      `ApiError` is caught by the walks, so a TypeError raised at any depth
      ends the whole top-level call. */
  datatype Outcome<T> = Returned(value: T) | TypeError

  /** `acc += v` on a Python list: a list is appended, a dict contributes
      its keys in order, and an error object is not iterable. */
  function Extend(acc: seq<string>, v: PyVal): (r: Outcome<seq<string>>)
    ensures r.Returned? <==> !v.PyErr?
    ensures r.Returned? ==> acc <= r.value
  {
    match v
    case PyList(xs) => Returned(acc + xs)
    case PyDict(ps) => Returned(acc + Keys(ps))
    case PyErr(_) => TypeError
  }
}
