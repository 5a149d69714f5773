/** The optional-value datatype used by the token matcher. */
module Options {

  datatype Option<+T> = None | Some(value: T)
}
