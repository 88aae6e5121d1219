/** A value that may be absent: Python's `None` or a value. */
module Optional {
  datatype Option<T> = None | Some(value: T)
}
