/** Small failure-carrying datatypes shared by the other modules. */
module Outcomes {

  /** A value that may be absent, as a field of a JSON request body may be. */
  datatype Option<+T> = None | Some(value: T)

  /** Either a computed value or the error that stopped the computation. */
  datatype Result<+T, +E> = Success(value: T) | Failure(error: E)
}
