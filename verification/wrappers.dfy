/** Optional values: JavaScript's `null` for a number that is not set yet. */
module Wrappers {

  datatype Option<+T> = None | Some(value: T)
}
