/** Optional values: an absent detector result, no match, no stored box. */
module Wrappers {
  datatype Option<+T> = None | Some(value: T)
}
