/** Failure-carrying values shared by the modules below: `None` stands for
    Python's `None` return, `Failure` for a raised exception. */
module Wrappers {

  datatype Option<+T> = None | Some(value: T)

  datatype Result<+R, +E> = Success(value: R) | Failure(error: E)
}
