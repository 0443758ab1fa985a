/** The Some/None datatype used for cells of the grid and for results that can fail. */
module Options {
  datatype Option<+T> = None | Some(value: T)
}
