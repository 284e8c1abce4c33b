/** The optional value used for the links of the tree and for parser results. */
module Wrappers {

  datatype Option<+T> = None | Some(value: T)
}
