/** Failure-carrying values used in place of Java's `null` and exceptions. */
module Wrappers {

  /** An optional value: `None` stands for a Java `null` result. */
  datatype Option<+T> = None | Some(value: T)

  /** Either a value or the error a Java method would have thrown. */
  datatype Result<+R, +E> = Success(value: R) | Failure(error: E)

  /** The outcome of a `void` Java method that may throw. */
  datatype Outcome<+E> = Pass | Fail(error: E)
}
