/** Optional values, used for C pointers that may be null and for calls that may throw. */
module Wrappers {

  datatype Option<+T> = None | Some(value: T)
}
