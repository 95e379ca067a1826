/** The optional value used for the clipboard's text payload and for the event a hook message raises. */
module Options {
  datatype Option<+T> = None | Some(value: T)
}
