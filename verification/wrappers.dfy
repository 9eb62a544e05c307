/** Optional values and results with an error, used for missing readings,
    undefined (not-a-number) estimates and the failures of the estimator. */
module Wrappers {

  datatype Option<+T> = None | Some(value: T)

  datatype Result<+R, +E> = Success(value: R) | Failure(error: E)
}
