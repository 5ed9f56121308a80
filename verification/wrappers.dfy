/** Failure-carrying values: the Java `null` and the thrown fault, made explicit. */
module Wrappers {

  /** A value that may be absent, standing for a Java reference that may be `null`. */
  datatype Option<+T> = None | Some(value: T)

  /** Either a computed value or the reason it could not be computed. */
  datatype Result<+R, +E> = Success(value: R) | Failure(error: E)
}
