/** The optional value used wherever the source has `null`/`undefined`. */
module Optional {

  datatype Option<+T> = None | Some(value: T)
}
