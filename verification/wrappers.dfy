/** The optional-value and outcome datatypes shared by the importer model. */
module Wrappers {

  /** A value that may be absent: JavaScript's `undefined`/`null` on one side, a value on the other. */
  datatype Option<+T> = None | Some(value: T)

  /** The outcome of a step that can throw. */
  datatype Result<+R, +E> = Success(value: R) | Failure(error: E)
}
