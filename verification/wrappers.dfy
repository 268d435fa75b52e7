/** The optional value used wherever the C code returns NULL or leaves a result uninitialised. */
module Wrappers {

  datatype Option<+T> = None | Some(value: T)

}
