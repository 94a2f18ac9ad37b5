/** Optional values, standing for Python's `None` where a plain value is expected. */
module Wrappers {

  datatype Option<+T> = None | Some(value: T)
}
