/** A value that may be absent: SQL NULL, Python None, or a missing dictionary key. */
module Options {
  datatype Option<+T> = None | Some(value: T)
}
