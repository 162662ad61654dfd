/** A value that may be missing: Python's `None`, and the model's errors. */
module Options {
  datatype Option<+T> = None | Some(value: T)
}
