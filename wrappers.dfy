/** Optional values and error-carrying results, used where the handlers
    test for a missing value or raise a not-found error. */
module Wrappers {

  datatype Option<+T> = None | Some(value: T)

  datatype Result<+T, +E> = Ok(value: T) | Err(error: E)
}
