/** Failure-carrying datatypes shared by the parser and the reconciler. */
module Wrappers {

  /** An optional value; also stands for Python's `None` argument. */
  datatype Option<+T> = None | Some(value: T)

  /** The outcome of an operation that may raise: its value, or the error it raises. */
  datatype Result<+R, +E> = Success(value: R) | Failure(error: E)
}
