/** Option and Result, the values that stand for Java's Optional, null and thrown exceptions. */
module Wrappers {

  /** `None` stands for an empty `Optional` or a null reference. */
  datatype Option<+T> = None | Some(value: T)

  /** `Failure` stands for an exception thrown to the caller. */
  datatype Result<+R, +E> = Success(value: R) | Failure(error: E)
}
