/** Optional values, standing in for Python's `None` and for library calls that raise. */
module Wrappers {
  datatype Option<+T> = None | Some(value: T)
}
