/** Option and Result: Python's `None` returns and raised exceptions,
    written out as values. */
module Wrappers {

  datatype Option<+T> = None | Some(value: T)

  datatype Result<+R, +E> = Success(value: R) | Failure(error: E)
}
