/** Option and Result values, used where the source reads an optional dictionary
    entry or fails with an exception. */
module Wrappers {

  datatype Option<+T> = None | Some(value: T)

  datatype Result<+R, +E> = Success(value: R) | Failure(error: E)

}
