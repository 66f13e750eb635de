/** The conventional optional value, used wherever the source has a nullable field. */
module Options {
  datatype Option<+T> = None | Some(value: T)
}
