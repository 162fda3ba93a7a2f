/** Plain helper datatypes shared by the other modules. */
module Wrappers {

  /** A value that may be absent: a missing list element, a row not found, a NULL column. */
  datatype Option<+T> = None | Some(value: T)

  /** The result of an operation that either completes or fails with an error value. */
  datatype Outcome<+E> = Pass | Fail(error: E)
}
