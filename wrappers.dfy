/** The optional value used wherever the script tests a variable against None. */
module Wrappers {
  datatype Option<+T> = None | Some(value: T)
}
