/** Optional values, standing in for JavaScript's `undefined`. */
module Wrappers {

  /** `None` is an absent (undefined) value, `Some(v)` a present one. */
  datatype Option<+T> = None | Some(value: T)
}
