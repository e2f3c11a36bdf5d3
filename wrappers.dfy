/** Optional values: the model's stand-in for JavaScript's `undefined`, `null` and `NaN` results. */
module Wrappers {
  datatype Option<+T> = None | Some(value: T)
}
