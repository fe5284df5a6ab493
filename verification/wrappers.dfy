/** The optional-value type used by the cache, the rotation and the monitor. */
module Wrappers {

  /** Python's `None` versus a present value. */
  datatype Option<+T> = None | Some(value: T)
}
