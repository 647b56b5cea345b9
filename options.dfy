/** The optional value used for state that is absent until first computed. */
module Options {

  datatype Option<+T> = None | Some(value: T)
}
