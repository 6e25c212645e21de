/** Failure-compatible wrappers used throughout the model: `Option` for a
    value that may be absent and `Result` for a computation that may raise. */
module Wrappers {

  datatype Option<+T> = None | Some(value: T)

  /** `Ok` carries the value of a call that returned; `Err` carries the
      exception a call raised. Usable with `:-`. */
  datatype Result<+T, +E> = Ok(value: T) | Err(error: E) {

    predicate IsFailure() {
      Err?
    }

    function PropagateFailure<U>(): Result<U, E>
      requires Err?
    {
      Err(error)
    }

    function Extract(): T
      requires Ok?
    {
      value
    }
  }
}
