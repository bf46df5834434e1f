/** Optional values and results with an error, for lookups that may miss and
    operations that may throw. */
module Common {

  datatype Option<+T> = None | Some(value: T)

  datatype Result<+R, +E> = Success(value: R) | Failure(error: E)
}
