/** Option and Result, used for JavaScript's null/undefined and for the build script's failure exit. */
module Wrappers {
  datatype Option<+T> = None | Some(value: T)

  datatype Result<+R, +E> = Success(value: R) | Failure(error: E)
}
