/** Shared plain datatypes. */
module Basics {
  datatype Option<+T> = None | Some(value: T)
}
