/** Option and Result, the two failure-compatible wrappers the rest of the model uses. */
module Wrappers {

  /** An optional value: Python's `None` or a present value. */
  datatype Option<+T> = None | Some(value: T)

  /** The outcome of an operation that may raise: a value, or the error it raised. */
  datatype Result<+T, +E> = Ok(value: T) | Err(error: E) {

    predicate IsFailure() {
      Err?
    }

    function PropagateFailure<U>(): Result<U, E>
      requires Err?
    {
      Err(error)
    }

    function Extract(): T
      requires Ok?
    {
      value
    }
  }
}
