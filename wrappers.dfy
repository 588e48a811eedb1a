/** The optional-value datatype shared by the whole model. */
module Wrappers {

  /** A value that may be absent: a missing request field, an unreadable date, a
      working-hours entry that does not exist. */
  datatype Option<+T> = None | Some(value: T)
}
