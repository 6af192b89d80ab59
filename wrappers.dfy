/** Optional values, for lookups that may find nothing and loops that may give up. */
module Wrappers {
  datatype Option<+T> = None | Some(value: T)
}
