/** Nullable values and exception-carrying results, as used throughout the model. */
module Wrappers {

  /** A C# nullable value: `None` stands for `null`. */
  datatype Option<+T> = None | Some(value: T)

  /** The outcome of an operation that either returns or throws. */
  datatype Result<+T, +E> = Ok(value: T) | Err(error: E)
}
