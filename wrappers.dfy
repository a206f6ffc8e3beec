/** Failure-compatible wrappers standing in for .NET's nullable values and thrown exceptions. */
module Wrappers {

  /** A value that may be absent: the model of a C# `string?` or `decimal?`. */
  datatype Option<+T> = None | Some(value: T)

  /** The outcome of an operation that either returns a value or throws. */
  datatype Result<+R, +E> = Success(value: R) | Failure(error: E)

  /** The outcome of a guard method that returns nothing or throws. */
  datatype Outcome<+E> = Pass | Fail(error: E)
}
