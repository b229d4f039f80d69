/** The optional value used wherever the screen can end up with nothing to show. */
module Wrappers {
  datatype Option<+T> = None | Some(value: T)
}
