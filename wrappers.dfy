/** Optional values: the model's stand-in for the source's nullable references. */
module Wrappers {

  /** `None` is a null reference or a failed parse; `Some(v)` a present value. */
  datatype Option<+T> = None | Some(value: T)
}
