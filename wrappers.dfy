/** Option and Result values for the converter's "None" returns and raised errors. */
module Wrappers {

  /** Python's `None` versus a present value. */
  datatype Option<+T> = None | Some(value: T)

  /** A value, or the kind of error the source raises or reports instead. */
  datatype Result<+T, +E> = Success(value: T) | Failure(error: E)
}
