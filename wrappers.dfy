/** The conventional optional value, used for a timer handle that may or may not be armed. */
module Wrappers {

  datatype Option<+T> = None | Some(value: T)
}
