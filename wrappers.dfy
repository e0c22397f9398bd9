/** Optional values, used for the lifetime that only transient messages carry. */
module Wrappers {

  datatype Option<+T> = None | Some(value: T)
}
