/** The result of a partial operation. */
module Options {
  datatype Option<+T> = None | Some(value: T)
}
