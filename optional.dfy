/** The usual optional-value datatype, standing for Python's `None` or a value. */
module Optional {

  datatype Option<T> = None | Some(value: T)

}
