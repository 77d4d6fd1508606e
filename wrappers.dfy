/** The optional value used for fetch outcomes and optional card parts. */
module Wrappers {

  datatype Option<+T> = None | Some(value: T)
}
