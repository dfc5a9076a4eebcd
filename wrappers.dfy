/** Optional values and results with an error, as the server's helpers return
    either a value or an `{ error: ... }` object. */
module Wrappers {

  datatype Option<+T> = None | Some(value: T)

  datatype Result<+T, +E> = Success(value: T) | Failure(error: E)
}
