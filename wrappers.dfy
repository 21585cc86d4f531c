/** The optional value used for partial results: a lookup that may fail,
    a run that may exhaust its fuel. */
module Wrappers {
  datatype Option<T> = None | Some(value: T)
}
