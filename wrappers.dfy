/** Option, Result and Outcome: the success/failure shapes shared by every module. */
module Wrappers {

  datatype Option<+T> = None | Some(value: T)

  /** A computation that yields a value or fails with an error. */
  datatype Result<+T, +E> = Ok(value: T) | Err(error: E)

  /** A computation that yields nothing on success and an error on failure. */
  datatype Outcome<+E> = Pass | Fail(error: E)
}
