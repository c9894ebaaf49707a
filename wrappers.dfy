/** The optional value used for `null`-able state and for rejected requests. */
module Wrappers {

  datatype Option<+T> = None | Some(value: T)
}
