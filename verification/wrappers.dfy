/** Optional values returned by the parsers. */
module Wrappers {

  datatype Option<+T> = None | Some(value: T)
}
