/** Optional values and outcomes that stand for Python's `None` and raised exceptions. */
module Wrappers {

  datatype Option<+T> = None | Some(value: T) {
    predicate IsFailure() {
      None?
    }

    function PropagateFailure<U>(): Option<U>
      requires None?
    {
      None
    }

    function Extract(): T
      requires Some?
    {
      value
    }
  }

  /** A returned value, or the exception a call raised instead. */
  datatype Result<+T, +E> = Ok(value: T) | Err(error: E)
}
