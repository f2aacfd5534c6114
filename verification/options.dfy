/** A value that may be absent: SQL's NULL, Python's None. */
module Options {
  datatype Option<+T> = None | Some(value: T)
}
