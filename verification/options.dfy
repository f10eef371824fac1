/** A value that may be absent: the outcome of a search that can fail. */
module Options {

  datatype Option<+T> = None | Some(value: T)

}
