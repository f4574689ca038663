/** The optional value used wherever the program has a null commit or a std::optional. */
module Wrappers {
  datatype Option<+T> = None | Some(value: T)
}
