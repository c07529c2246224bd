/** The Java `null` of an optional reference. */
module Wrappers {
  datatype Option<+T> = None | Some(value: T)
}
