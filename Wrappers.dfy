/** Optional values: `null` versus an object in the source. */
module Wrappers {

  datatype Option<+T> = None | Some(value: T)
}
