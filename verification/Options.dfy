/** The optional value every component uses for a nullable column, field or result. */
module Options {
  datatype Option<+T> = None | Some(value: T)
}
