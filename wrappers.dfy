/** Failure-carrying datatypes used to model Python's `None` and raised exceptions. */
module Wrappers {

  /** `None` or a value, as Python's `Optional[T]`. */
  datatype Option<+T> = None | Some(value: T)

  /** A returned value or a raised exception. */
  datatype Result<+T, +E> = Ok(value: T) | Err(error: E)

  /** Normal completion of a procedure that returns nothing, or the exception it raised. */
  datatype Outcome<+E> = Pass | Fail(error: E)
}
