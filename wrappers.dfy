/** `Option` and `Result`, shared by every module of the model. */
module Wrappers {

  /** An optional value; `None` also stands for a lookup that raised. */
  datatype Option<+T> = None | Some(value: T)

  /** A computation that either produced a value or raised an error. */
  datatype Result<+R, +E> = Success(value: R) | Failure(error: E)
}
