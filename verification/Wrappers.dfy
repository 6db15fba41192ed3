/** The result shape every other module uses. */
module Wrappers {

  /** A value that may be absent: a nil field, a missing key, an unset annotation. */
  datatype Option<+T> = None | Some(value: T)
}
