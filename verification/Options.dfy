/** A value that may be absent: a nullable column, a lookup, an optional argument. */
module Options {
  datatype Option<+T> = None | Some(value: T)
}
