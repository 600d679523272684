/** Failure-carrying results. The exceptions the ledger throws become an `Error`
    value: ArgumentException and its subclass ArgumentNullException become
    `ArgumentError`, KeyNotFoundException becomes `NotFound`, and
    InvalidOperationException (insufficient funds, duplicate username) becomes
    `InvalidOperation`. */
module Wrappers {

  datatype Option<+T> = None | Some(value: T)

  datatype Error = ArgumentError | NotFound | InvalidOperation

  /** The outcome of an operation that returns a value or throws. */
  datatype Result<+T> = Success(value: T) | Failure(error: Error)

  /** The outcome of a `void` operation: it returns normally or throws. */
  datatype Outcome = Pass | Fail(error: Error)
}
