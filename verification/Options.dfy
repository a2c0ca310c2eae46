/** A value that may be absent: Go's nil, or the second result of a comma-ok. */
module Options {
  datatype Option<T> = None | Some(value: T)
}
