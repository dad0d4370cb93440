/** A value that may be absent: a null pointer or an unset callback of the source. */
module Optional {
  datatype Option<+T> = None | Some(value: T)
}
