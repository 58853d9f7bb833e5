/** Option and Result, used for the C# source's nulls and exceptions. */
module Wrappers {

  datatype Option<+T> = None | Some(value: T)

  /** `Failure(message)` stands for a thrown exception and its `Message`. */
  datatype Result<+T, +E> = Success(value: T) | Failure(error: E)
}
