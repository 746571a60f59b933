/** A value that may be absent: Go's second result, or a nil pointer or error. */
module Options {
  datatype Option<+T> = None | Some(value: T)
}
