/** Values that may be absent, such as a nullable column. */
module Options {
  datatype Option<+T> = None | Some(value: T)
}
