/** Optional values: a missing header, a cache miss. */
module Wrappers {

  datatype Option<+T> = None | Some(value: T)
}
