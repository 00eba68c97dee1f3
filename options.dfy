/** The optional value returned by a DOM query that may match nothing. */
module Options {
  datatype Option<+T> = None | Some(value: T)
}
