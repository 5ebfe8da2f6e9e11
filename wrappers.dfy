/** The optional values of the model: a missing argument, a date with no year. */
module Wrappers {
  datatype Option<+T> = None | Some(value: T)
}
