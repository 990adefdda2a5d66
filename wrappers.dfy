/** Small failure-carrying datatypes shared by the other modules. */
module Wrappers {

  /** An optional value. */
  datatype Option<+T> = None | Some(value: T)

  /** The outcome of an operation that either succeeds with no value or fails with an error. */
  datatype Outcome<+E> = Pass | Fail(error: E)
}
