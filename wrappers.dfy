/** Failure-compatible wrappers: Option for Java's nullable references and Result for
    the exceptions a Java method would throw. */
module Wrappers {

  datatype Option<+T> = None | Some(value: T)

  datatype Result<+T, +E> = Success(value: T) | Failure(error: E)
}
