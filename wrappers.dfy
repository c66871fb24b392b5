/** Option and Result: the values the model uses for lookups that may miss
    and for a directory run that may abort. */
module Wrappers {

  datatype Option<+T> = None | Some(value: T)

  datatype Result<+R, +E> = Success(value: R) | Failure(error: E)
}
