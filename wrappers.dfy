/** Option and Result: the model's stand-ins for Go's nil-able error and
    for the (value, error) pairs the library calls return. */
module Wrappers {

  datatype Option<+T> = None | Some(value: T)

  datatype Result<+R, +E> = Success(value: R) | Failure(error: E)
}
