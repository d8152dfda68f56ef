/** The optional value used for the list cursor and for notifications. */
module Options {
  datatype Option<+T> = None | Some(value: T)
}
