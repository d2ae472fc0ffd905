/** The optional value used wherever the script works with a value that may be absent. */
module Wrappers {

  datatype Option<+T> = None | Some(value: T)
}
