/** Optional values: a handler pointer that may be null, a reading that may be absent. */
module Wrappers {
  datatype Option<+T> = None | Some(value: T)
}
