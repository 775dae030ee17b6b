/** The optional value used wherever the source has a nullable one. */
module Options {
  datatype Option<+T> = None | Some(value: T)
}
