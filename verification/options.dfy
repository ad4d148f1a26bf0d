/** The optional value used for "no match" results. */
module Options {
  datatype Option<+T> = None | Some(value: T)
}
