/** Option and Result values used in place of the exceptions and `sys.exit` calls of the probe. */
module Wrappers {

  datatype Option<+T> = None | Some(value: T)

  datatype Result<+T, +E> = Success(value: T) | Failure(error: E)
}
