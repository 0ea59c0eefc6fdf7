/** Failure-compatible return types used by every service model: `Option`
    for nullable results and `Result` for operations that throw. */
module Wrappers {

  /** A nullable value: `None` plays the role of C# `null` / Go `nil`. */
  datatype Option<+T> = None | Some(value: T) {

    /** Returns the value, or `default` when there is none. */
    function GetOr(default: T): T {
      match this
      case Some(v) => v
      case None => default
    }
  }

  /** The outcome of an operation that either returns a value or throws. */
  datatype Result<+T, +E> = Ok(value: T) | Err(error: E) {

    predicate IsFailure() {
      Err?
    }

    function PropagateFailure<U>(): Result<U, E>
      requires Err?
    {
      Err(error)
    }

    function Extract(): T
      requires Ok?
    {
      value
    }
  }
}
