/** The Option datatype used for JavaScript's Invalid Date and for "no error". */
module Wrappers {

  datatype Option<+T> = None | Some(value: T)

}
