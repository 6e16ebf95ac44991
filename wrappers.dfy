/** Optional values, standing for a JavaScript reference that may be null or undefined. */
module Wrappers {
  datatype Option<+T> = None | Some(value: T)
}
