/** Optional values, for the source's null arguments. */
module Wrappers {
  datatype Option<+T> = None | Some(value: T)
}
