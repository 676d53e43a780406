/** The Option type used for the resolver's nullable results. */
module Wrappers {
  datatype Option<+T> = None | Some(value: T)
}
