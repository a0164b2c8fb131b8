/** The optional value used where a search may find nothing. */
module Wrappers {
  datatype Option<+T> = None | Some(value: T)
}
