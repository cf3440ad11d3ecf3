/** Optional values, used where the source yields a value or `undefined`. */
module Options {
  datatype Option<T> = None | Some(value: T)
}

/** Array searching as done by `Array.prototype.indexOf`. */
module Seqs {
  import opened Options

  /** The first position of `x` in `s`, or None where `indexOf` answers -1. */
  function IndexOf<T(==)>(s: seq<T>, x: T): (r: Option<nat>)
    ensures r.Some? ==> r.value < |s| && s[r.value] == x
    ensures r.Some? ==> forall j :: 0 <= j < r.value ==> s[j] != x
    ensures r.None? <==> x !in s
  {
    if s == [] then None
    else if s[0] == x then Some(0)
    else match IndexOf(s[1..], x)
      case None => None
      case Some(i) => Some(i + 1)
  }
}
