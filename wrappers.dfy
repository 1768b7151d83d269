/** The optional value used for Python's `None`, dictionary lookups and regular-expression matches. */
module Wrappers {

  datatype Option<+T> = None | Some(value: T)

}
