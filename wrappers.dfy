/** The optional value used for the nullable columns of a stored spot. */
module Wrappers {
  datatype Option<+T> = None | Some(value: T)
}
