/** The optional value used where the system has "no entry" or "failed". */
module Wrappers {

  datatype Option<+T> = None | Some(value: T)
}
