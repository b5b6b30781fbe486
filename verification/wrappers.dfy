/** Failure-carrying results, used where the modelled code raises an exception. */
module Wrappers {

  /** Either the value an operation computed or the error it raised instead. */
  datatype Result<+T, +E> = Success(value: T) | Failure(error: E)
}
