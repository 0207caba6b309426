/** The optional-value type used wherever Python returns `None` or raises. */
module Wrappers {

  datatype Option<+T> = None | Some(value: T)
}
