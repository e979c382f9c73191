/** The optional value used for partial operations: a number that may fail to
    parse, a variable that may have no value. */
module Wrappers {

  datatype Option<+T> = None | Some(value: T)
}
