/** A value that may be absent: Python's `None`, or a missing key. */
module Options {
  datatype Option<+T> = None | Some(value: T)
}
