/** An optional value, for arguments a caller may leave out. */
module Options {

  datatype Option<+T> = None | Some(value: T)
}
