/** The optional value used wherever the engine may find nothing. */
module Wrappers {
  datatype Option<+T> = None | Some(value: T)
}
