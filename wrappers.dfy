/** The optional value used for Kotlin's nullable types and for the empty slots of the pipeline. */
module Wrappers {

  datatype Option<+T> = None | Some(value: T)

  /** The elements of an option, as a sequence of length zero or one. */
  function Elements<T>(o: Option<T>): (s: seq<T>)
    ensures |s| <= 1
    ensures o.None? <==> s == []
    ensures o.Some? ==> s == [o.value]
  {
    if o.Some? then [o.value] else []
  }
}
