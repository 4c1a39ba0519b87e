/** Plain Option and Result datatypes shared by the whole model. */
module Wrappers {

  /** `undefined` / `null` versus a present value. */
  datatype Option<+T> = None | Some(value: T)

  /** A use case's `Result`: a value, or an error in place of a thrown exception. */
  datatype Result<+T, +E> = Success(value: T) | Failure(error: E)
}
