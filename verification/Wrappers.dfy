/** Optional values and results, standing for Go's nil and error returns. */
module Wrappers {

  datatype Option<+T> = None | Some(value: T)

  /** One element of a non-empty set, no matter which: a step of Go's `range` over a map,
      whose order is unspecified. */
  method Pick<T>(s: set<T>) returns (x: T)
    requires s != {}
    ensures x in s
  {
    assert exists y :: y in s;
    x :| x in s;
  }

  datatype Result<+R, +E> = Success(value: R) | Failure(error: E)
}
