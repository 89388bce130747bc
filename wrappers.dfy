/** Failure-compatible wrappers shared by the model: Java's nullable references
    become Option, and methods that may throw become Result. */
module Wrappers {

  datatype Option<+T> = None | Some(value: T)

  datatype Result<+R, +E> = Success(value: R) | Failure(error: E)
}
