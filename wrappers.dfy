/** Optional values, used for "no match" and for a parse that would raise. */
module Wrappers {

  datatype Option<+T> = None | Some(value: T)

}
