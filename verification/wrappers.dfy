/** Optional values: used for JavaScript's `undefined` and for partial parses. */
module Wrappers {

  datatype Option<+T> = None | Some(value: T)
}
