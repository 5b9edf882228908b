/** Optional values: the model's stand-in for JavaScript's `null` element references. */
module Wrappers {

  datatype Option<+T> = None | Some(value: T)
}
