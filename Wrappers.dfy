/** The optional value used wherever the script tests a value for null or a
    regular-expression match for failure. */
module Wrappers {
  datatype Option<+T> = None | Some(value: T)
}
