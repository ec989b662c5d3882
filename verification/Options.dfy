/** The optional value every other module uses in place of a missing result. */
module Options {

  datatype Option<+T> = None | Some(value: T)
}
