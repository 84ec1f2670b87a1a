/** Optional values and results, as used for Go's `(value, error)` returns. */
module Wrappers {

  datatype Option<+T> = None | Some(value: T)

  datatype Result<+R, +E> = Success(value: R) | Failure(error: E)

  function Min(a: nat, b: nat): nat
  {
    if a <= b then a else b
  }
}
