/** The optional value used for JavaScript's `null`-or-value cells. */
module Wrappers {

  datatype Option<+T> = None | Some(value: T)
}
