/** The optional value used wherever the server stores `None` or looks something up. */
module Wrappers {
  datatype Option<+T> = None | Some(value: T)
}
