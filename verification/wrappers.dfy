/** Failure-carrying datatypes shared by every module of the model. A Python
    exception raised by the modelled code becomes a `Failure` whose error value
    names it; a Python `None` becomes `None`. */
module Wrappers {

  datatype Option<+T> = None | Some(value: T)

  datatype Result<+R, +E> = Success(value: R) | Failure(error: E)
}
