/** The exceptions the lattice raises, as values. */
module Errors {

  /** Java's IllegalArgumentException with its message. */
  datatype Error = IllegalArgument(message: string)

  /** A query that either answers or raises. */
  datatype Result<T> = Success(value: T) | Failure(error: Error)

  /** A command that either completes or raises. */
  datatype Outcome = Pass | Fail(error: Error)

  const SideMessage: string := "N must be greater than 0."
  const BoundsMessage: string := "Index is out of bound."
}
