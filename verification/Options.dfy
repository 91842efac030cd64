/** An optional value: the source's None, and whatever stands beside it. */
module Options {

  datatype Option<+T> = None | Some(value: T)
}
