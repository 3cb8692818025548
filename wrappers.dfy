/** Optional values: Python's None, pandas' NaN and caught exceptions. */
module Wrappers {

  datatype Option<+T> = None | Some(value: T)
}
