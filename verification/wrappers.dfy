/** The success-or-error result used wherever the source raises or exits on bad input. */
module Wrappers {
  datatype Result<+T, +E> = Success(value: T) | Failure(error: E)
}
