/** The failure-compatible types shared by the other modules. */
module Wrappers {

  /** A value that may be missing: Python's None, or an exception that stops the caller. */
  datatype Option<+T> = None | Some(value: T) {
    predicate IsFailure() {
      None?
    }

    function PropagateFailure<U>(): Option<U>
      requires None?
    {
      None
    }

    function Extract(): T
      requires Some?
    {
      value
    }
  }
}
