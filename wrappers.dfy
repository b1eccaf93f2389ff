/** The optional pointer used throughout the model: `None` plays the part of a null pointer. */
module Wrappers {
  datatype Option<+T> = None | Some(value: T)
}
