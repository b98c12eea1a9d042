/** The one result type shared by every component: a value, or the source's failure(). */
module Wrappers {
  datatype Option<+T> = None | Some(value: T)
}
