/** Optional values used across the model. */
module Wrappers {

  /** `None` plays the role of `std::string::npos` and of a rejected option. */
  datatype Option<+T> = None | Some(value: T)
}
