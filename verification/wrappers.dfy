/** Failure-compatible wrappers used by every operation of the room server. */
module Wrappers {

  /** An optional value; stands for the source's `Optional[...]` fields that start as `None`. */
  datatype Option<+T> = None | Some(value: T)

  /** The outcome of an operation: a value, or the kind of error the request failed with. */
  datatype Result<+T, +E> = Ok(value: T) | Err(error: E) {
    predicate IsFailure() {
      Err?
    }

    function PropagateFailure<U>(): Result<U, E>
      requires Err?
    {
      Err(error)
    }

    function Extract(): T
      requires Ok?
    {
      value
    }
  }
}
