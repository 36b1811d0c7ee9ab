/** Optional values: the PHP `null` of a configuration entry, or the absence of a result. */
module Wrappers {
  datatype Option<+T> = None | Some(value: T)
}
