/** Optional values, used for JavaScript's `null`-or-value variables. */
module Wrappers {
  datatype Option<+T> = None | Some(value: T)
}
