/** The optional value used for the Python exceptions the packer can raise. */
module Wrappers {

  datatype Option<+T> = None | Some(value: T)

}
