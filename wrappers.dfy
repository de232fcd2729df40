/** Optional values and results with an error, standing for Java's null and
    for the exceptions that abort construction. */
module Wrappers {

  datatype Option<+T> = None | Some(value: T)

  datatype Result<+R, +E> = Success(value: R) | Failure(error: E)
}
