/** The optional value used for PHP's null. */
module Wrappers {

  datatype Option<+T> = None | Some(value: T)
}
