/** C#'s `null` and the value-or-exception outcome of a call, as plain
    datatypes. */
module Nullable {

  /** A reference that may be `null` (`None`). */
  datatype Option<T> = None | Some(value: T)

  /** What a call produced, or the error it raised instead. */
  datatype Result<R, E> = Success(value: R) | Failure(error: E)
}
