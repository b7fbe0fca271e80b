/** The optional value used wherever a parse may fail. */
module Wrappers {

  datatype Option<+T> = None | Some(value: T)
}
