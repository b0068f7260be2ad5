/** The optional value used by the reference decimal parser. */
module Wrappers {

  datatype Option<+T> = None | Some(value: T)
}
