/** The optional value used where the source returns `false` or takes `null`. */
module Wrappers {

  datatype Option<+T> = None | Some(value: T)
}
