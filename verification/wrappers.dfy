/** Failure-compatible wrappers shared by the interaction model.
    - Option<T>: a value that may be missing (an undefined angle, a padded neighbour slot).
    - Result<T, E>: a value or the error that aborted the computation. */
module Wrappers {

  datatype Option<+T> = None | Some(value: T)

  datatype Result<+T, +E> = Ok(value: T) | Err(error: E) {

    predicate IsFailure() {
      Err?
    }

    function PropagateFailure<U>(): Result<U, E>
      requires Err?
    {
      Err(error)
    }

    function Extract(): T
      requires Ok?
    {
      value
    }
  }
}
