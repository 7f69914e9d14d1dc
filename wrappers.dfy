/** Option and Result values used by the engine for "maybe" answers and for
    the one recoverable error of generation. */
module Wrappers {

  datatype Option<+T> = None | Some(value: T)

  datatype Result<+T, +E> = Success(value: T) | Failure(error: E)
}
