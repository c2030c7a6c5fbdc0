/** The optional value used for the snippet parser's "node or failure" answer. */
module Wrappers {

  datatype Option<+T> = None | Some(value: T)
}
