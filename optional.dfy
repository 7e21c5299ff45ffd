/** The Some/None wrapper used for Python's `None` results and raised errors. */
module Optional {

  datatype Option<+T> = None | Some(value: T)

}
