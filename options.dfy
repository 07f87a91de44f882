/** The optional value used for SQL NULL, for Python's None, and for a
    parse that fails. */
module Options {

  datatype Option<+T> = None | Some(value: T)

}
