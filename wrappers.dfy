/** Optional values: an absent directive input, or the NaN outcome of a numeric conversion. */
module Wrappers {
  datatype Option<T> = None | Some(value: T)
}
