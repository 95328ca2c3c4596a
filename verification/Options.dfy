/** The optional value used wherever the program uses `undefined`. */
module Options {
  datatype Option<+T> = None | Some(value: T)
}
