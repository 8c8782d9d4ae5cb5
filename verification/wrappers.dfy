/** Failure-compatible wrappers used across the model: `Option` for Python's
    "value or None" and `Result` for "value or raised exception". */
module Wrappers {

  datatype Option<+T> = None | Some(value: T) {
    /** Python's `x if x is not None else default`. */
    function GetOr(default: T): T
    {
      if Some? then value else default
    }
  }

  datatype Result<+T, +E> = Ok(value: T) | Err(error: E) {
    predicate IsFailure()
    {
      Err?
    }

    function PropagateFailure<U>(): Result<U, E>
      requires Err?
    {
      Err(error)
    }

    function Extract(): T
      requires Ok?
    {
      value
    }
  }
}
