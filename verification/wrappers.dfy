/** Optional values and results shared by the JSON and test-naming models. */
module Wrappers {

  /** An optional value: the test method's data-provider entry, for one. */
  datatype Option<+T> = None | Some(value: T)

  /** The outcome of decoding JSON text: the value tree, or the decoder's error message. */
  datatype Result<+R, +E> = Success(value: R) | Failure(error: E)
}
