/** The optional value used for absent request arguments and nullable fields. */
module Wrappers {

  datatype Option<+T> = None | Some(value: T)
}
