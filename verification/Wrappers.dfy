/** The result of code that may panic or fail. */
module Wrappers {

  datatype Option<+T> = None | Some(value: T)
}
