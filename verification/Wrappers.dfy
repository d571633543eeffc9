/** Optional results, standing for the NULL pointers and -1 returns of the server. */
module Wrappers {
  datatype Option<+T> = None | Some(value: T)
}
