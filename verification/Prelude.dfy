// Outcome types shared by every module.
module Prelude {

  datatype Option<+T> = None | Some(value: T)

  /** What a call returns, or the error it throws. */
  datatype Result<+T, +E> = Ok(value: T) | Err(error: E) {
    predicate IsFailure() { Err? }

    function PropagateFailure<U>(): (r: Result<U, E>)
      requires Err?
    { Err(error) }

    function Extract(): T
      requires Ok?
    { value }
  }
}
