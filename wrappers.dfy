/** Optional values: JavaScript's `undefined` result of popping an empty array. */
module Wrappers {
  datatype Option<+T> = None | Some(value: T)
}
