/** The optional value used wherever the plugin works with a pointer that may be null. */
module Wrappers {

  datatype Option<+T> = None | Some(value: T)
}
