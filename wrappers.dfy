/** Option and Result datatypes shared by the other modules. */
module Wrappers {

  datatype Option<+T> = None | Some(value: T)

  /** A computation that either yields a value or stops the program. */
  datatype Result<+T, +E> = Ok(value: T) | Err(error: E) {
    predicate IsFailure() { Err? }

    function PropagateFailure<U>(): Result<U, E>
      requires Err?
    {
      Err(error)
    }

    function Extract(): T
      requires Ok?
    {
      value
    }
  }
}
