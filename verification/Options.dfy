/** A value that may be absent, as Python's and TypeScript's `None` and `null`. */
module Options {
  datatype Option<+T> = None | Some(value: T)
}
