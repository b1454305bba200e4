/** Optional values and error-carrying results, used wherever the Python code
    returns None or raises an exception that a caller handles. */
module Wrappers {

  datatype Option<+T> = None | Some(value: T)

  datatype Result<+R, +E> = Success(value: R) | Failure(error: E)
}
