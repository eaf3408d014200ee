/** The optional-value datatype used for "no report produced". */
module Wrappers {

  datatype Option<+T> = None | Some(value: T)
}
