/** The Some/None datatype used wherever the source returns null or throws. */
module Wrappers {

  datatype Option<+T> = None | Some(value: T)
}
