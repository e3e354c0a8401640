/** Option and Result values shared by the modules of this model. */
module Wrappers {

  /** `None` stands for JavaScript's `undefined`. */
  datatype Option<+T> = None | Some(value: T)

  /** The outcome of an operation that the source may abort by throwing. */
  datatype Result<+R, +E> = Success(value: R) | Failure(error: E)
}
