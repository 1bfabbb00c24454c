/** The optional value used throughout the model (a NULL pointer, an absent step, a parse that did not match). */
module Wrappers {
  datatype Option<+T> = None | Some(value: T)
}
