/** Optional values and results with an error, for the engine's "no move" answers and
    for the protocol code's failures. */
module Wrappers {

  datatype Option<+T> = None | Some(value: T)

  datatype Result<+R, +E> = Success(value: R) | Failure(error: E)
}
