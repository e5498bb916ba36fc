/** Optional values: the model's rendering of JavaScript's `null` results. */
module Wrappers {

  datatype Option<+T> = None | Some(value: T)
}
