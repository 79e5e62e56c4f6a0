/** The optional value used for "the source returns None" and for "the source raises". */
module Wrappers {

  datatype Option<+T> = None | Some(value: T)
}
