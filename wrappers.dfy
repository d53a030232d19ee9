/** The conventional optional value: a conversion that may fail. */
module Wrappers {
  datatype Option<+T> = None | Some(value: T)
}
