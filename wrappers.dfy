/** Option and Result values used for absent successors, lookups that can fail and
    operations whose error path the source reports. */
module Wrappers {

  datatype Option<+T> = None | Some(value: T)

  datatype Result<+T, +E> = Success(value: T) | Failure(error: E)
}
