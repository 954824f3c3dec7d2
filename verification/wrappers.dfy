/** Failure-compatible wrappers shared by the model's modules.
    `Option` stands for a cell that may hold pandas' missing marker;
    `Result` stands for an operation that may raise. */
module Wrappers {

  /** `None` is the missing value a division by a zero denominator produces. */
  datatype Option<+T> = None | Some(value: T)

  /** `Failure` carries the exception the source would raise. */
  datatype Result<+T, +E> = Success(value: T) | Failure(error: E)
}
