/** Failure-carrying datatypes used to model the exceptions of the ledger script. */
module Wrappers {

  /** A value that may be absent; models a spreadsheet cell that may be empty (Python `None`). */
  datatype Option<+T> = None | Some(value: T)

  /** The outcome of an operation that can raise: a value, or the error it raised. */
  datatype Result<+T, +E> = Success(value: T) | Failure(error: E)
}
