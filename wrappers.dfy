/** The optional value used where the page either finds something or does nothing. */
module Wrappers {
  datatype Option<+T> = None | Some(value: T)
}
