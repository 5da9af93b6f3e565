/** The panics of the Go constructors become `Failure` values. */
module Wrappers {

  datatype Result<+T, +E> = Success(value: T) | Failure(error: E)
}
