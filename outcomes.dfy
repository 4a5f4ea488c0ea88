/** Optional values and success-or-error values, used for Python's `None`
    and for operations that raise. */
module Outcomes {

  datatype Option<+T> = None | Some(value: T)

  datatype Result<+T, +E> = Success(value: T) | Failure(error: E)
}
