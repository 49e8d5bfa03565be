/** Failure-compatible wrappers shared by every module of the model. */
module Wrappers {

  datatype Option<+T> = None | Some(value: T)

  /** The outcome of an operation that either returns a value or raises. */
  datatype Result<+T, +E> = Ok(value: T) | Err(error: E) {

    predicate IsFailure() {
      Err?
    }

    function PropagateFailure<U>(): Result<U, E>
      requires Err?
    {
      Err(error)
    }

    function Extract(): T
      requires Ok?
    {
      value
    }
  }

  /** The object a mutating call leaves behind, together with the exception the
      call raised, if any. Keeping both makes "a failed call changes nothing"
      a property that can be stated. */
  datatype Updated<+S, +E> = Updated(state: S, raised: Option<E>)
}
