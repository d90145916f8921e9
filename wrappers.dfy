/** Failure-compatible wrappers shared by the menu model. */
module Wrappers {

  /** A value that may be absent (`null`, `NaN`). */
  datatype Option<+T> = None | Some(value: T)

  /** Either a computed value or the reason it could not be computed. */
  datatype Result<+R, +E> = Success(value: R) | Failure(error: E)

  /** An action that either went through or was refused for a reason. */
  datatype Outcome<+E> = Pass | Fail(error: E)
}
