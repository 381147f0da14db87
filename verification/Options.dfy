/** The optional value used throughout the model: a cell that holds nothing, a
    lookup that misses, a call that returns false. */
module Options {
  datatype Option<+T> = None | Some(value: T)
}
