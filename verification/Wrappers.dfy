/** The optional value used wherever the program panics, returns `None` or does not return. */
module Wrappers {
  datatype Option<+T> = None | Some(value: T)
}
