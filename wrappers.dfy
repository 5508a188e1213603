/** Option and Result, the two failure-carrying shapes the model needs, and a prefix test on sequences. */
module Wrappers {

  /** A value that may be absent (Python's `None`). */
  datatype Option<+T> = None | Some(value: T)

  /** Either a value or the error a Python `raise` would have produced. */
  datatype Result<+R, +E> = Ok(value: R) | Err(error: E)

  /** `p` is an initial segment of `s` (the same relation as Dafny's `p <= s`, stated by slicing). */
  predicate IsPrefix<T(==)>(p: seq<T>, s: seq<T>)
  {
    |p| <= |s| && s[..|p|] == p
  }
}
