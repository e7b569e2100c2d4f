/** An optional value: Go's nullable results and its (value, error) pairs
    whose error detail is not observed. */
module Options {
  datatype Option<+T> = None | Some(value: T)
}
