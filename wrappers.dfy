/** Optional values: Python's `None` or a value. */
module Wrappers {
  datatype Option<T> = None | Some(value: T)
}
