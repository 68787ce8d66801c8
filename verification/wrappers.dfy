/** Option and Result values used for the places where the program either
    gets a value or stops with an `unwrap` panic. */
module Wrappers {

  datatype Option<+T> = None | Some(value: T)

  datatype Result<+R, +E> = Success(value: R) | Failure(error: E)
}
