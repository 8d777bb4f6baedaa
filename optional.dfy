/** The optional value used for JavaScript's `null` / "nothing to do". */
module Optional {

  datatype Option<T> = None | Some(value: T)
}
