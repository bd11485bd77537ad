/** Failure-compatible Option and Result types used across the keyring model. */
module Wrappers {

  datatype Option<+T> = None | Some(value: T)

  /** The value of a call that either resolves (`Ok`) or rejects (`Err`). */
  datatype Result<+T, +E> = Ok(value: T) | Err(error: E) {

    predicate IsFailure() {
      Err?
    }

    function PropagateFailure<U>(): Result<U, E>
      requires Err?
    {
      Err(error)
    }

    function Extract(): T
      requires Ok?
    {
      value
    }
  }
}
