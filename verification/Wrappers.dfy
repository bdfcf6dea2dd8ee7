/** The optional value the other modules use where the source has `None`. */
module Wrappers {
  datatype Option<+T> = None | Some(value: T)
}
