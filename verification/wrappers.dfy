/** Optional values: the model's stand-in for Go's nil pointers. */
module Wrappers {

  /** `None` plays the part of a nil pointer, `Some(v)` a pointer to `v`. */
  datatype Option<+T> = None | Some(value: T)
}
