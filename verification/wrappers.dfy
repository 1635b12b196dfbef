/** Failure-compatible datatypes used in place of the source's null
    references and exceptions. */
module Wrappers {

  /** A value or nothing; stands in for a nullable reference. */
  datatype Option<+T> = None | Some(value: T)

  /** A value, or the error that the source would raise as an exception. */
  datatype Result<+T, +E> = Ok(value: T) | Err(error: E)
}
