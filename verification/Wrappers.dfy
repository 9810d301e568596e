/** Shared by the modules whose entities have optional parts. */
module Wrappers {
  datatype Option<+T> = None | Some(value: T)
}
