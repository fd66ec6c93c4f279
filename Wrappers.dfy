/** The Option datatype used where the source returns a value or null, or throws. */
module Wrappers {

  datatype Option<+T> = None | Some(value: T)

}
