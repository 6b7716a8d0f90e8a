/** The optional value used throughout the model for the source's `null` and `undefined`. */
module Wrappers {

  datatype Option<+T> = None | Some(value: T)
}
