/** Failure-carrying wrappers shared by the model's modules. */
module Wrappers {

  /** A value that may be missing (a search that found nothing). */
  datatype Option<+T> = None | Some(value: T)

  /** Either a value or the reason the original program gives up. */
  datatype Result<+R, +E> = Success(value: R) | Failure(error: E)
}
