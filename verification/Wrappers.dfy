/** The optional value, used wherever the source has std::optional, a null pointer or an end() iterator. */
module Wrappers {
  datatype Option<+T> = None | Some(value: T)
}
