/** The optional value used wherever the source either returns `None` or raises. */
module Options {

  datatype Option<+T> = None | Some(value: T)
}
