/** The Some/None datatype that stands in for a JavaScript value that may be null. */
module Wrappers {

  datatype Option<+T> = None | Some(value: T)
}
