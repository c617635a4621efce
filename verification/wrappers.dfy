/** Failure-carrying result types shared by the aperture factories and the file-format layer. */
module Wrappers {

  /** A value that may be absent (Python's `None`). */
  datatype Option<+T> = None | Some(value: T)

  /** Either a computed value or the error the source would raise instead. */
  datatype Result<+R, +E> = Success(value: R) | Failure(error: E)
}
