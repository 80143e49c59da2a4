/** Small helper datatypes shared by the other modules. */
module Wrappers {

  /** A value that may be absent (a missing dictionary key, a parse that failed). */
  datatype Option<T> = None | Some(value: T)

  function Min(a: int, b: int): (m: int)
    ensures m <= a && m <= b
    ensures m == a || m == b
  {
    if a <= b then a else b
  }
}
