/** The optional value used for a branch's parent link. */
module Wrappers {

  datatype Option<+T> = None | Some(value: T)
}
