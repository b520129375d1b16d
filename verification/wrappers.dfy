/** The optional-value datatype shared by the modules of this model. */
module Wrappers {

  /** A value that may be absent: JSON `null`, a missing field, or "no such index". */
  datatype Option<+T> = None | Some(value: T)
}
