/** Option and Result, and the one kind of failure the modelled code raises. */
module Wrappers {

  /** A value that may be absent; `None` stands for a Java `null`. */
  datatype Option<+T> = None | Some(value: T)

  /** The outcome of an operation that may throw: `Failure` carries the exception. */
  datatype Result<+R, +E> = Success(value: R) | Failure(error: E)

  /** The exception `Objects.requireNonNull` throws, with its optional detail message. */
  datatype Error = NullPointer(message: Option<string>)
}
