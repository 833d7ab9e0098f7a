/** Option and Result values: the model's stand-ins for Java's null and for exceptions. */
module Outcomes {

  datatype Option<+T> = None | Some(value: T)

  /** A computation that either produced a value or raised an error. */
  datatype Result<+T, +E> = Ok(value: T) | Err(error: E) {
    predicate IsFailure() {
      Err?
    }

    function PropagateFailure<U>(): Result<U, E>
      requires Err?
    {
      Err(error)
    }

    function Extract(): T
      requires Ok?
    {
      value
    }
  }

  /** A step that either succeeded or stopped the run with an error. */
  datatype Outcome<+E> = Pass | Fail(error: E)
}
