/** The one shared helper type. */
module Wrappers {

  datatype Option<+T> = None | Some(value: T)
}
