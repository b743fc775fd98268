/** The optional value used throughout the model for "undefined or a value". */
module Wrappers {

  datatype Option<+T> = None | Some(value: T)
}
