/** Option and Result, the failure-carrying datatypes the model uses for Java's
    nulls and exceptions. */
module Wrappers {

  datatype Option<+T> = None | Some(value: T)

  datatype Result<+T, +E> = Ok(value: T) | Err(error: E)

  /** An operation that either completes or fails with a value (a thrown exception). */
  datatype Outcome<+E> = Pass | Fail(error: E)
}
