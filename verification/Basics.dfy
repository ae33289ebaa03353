/** Types shared by the models of the codec and of the pager. */
module Basics {
  type byte = x: int | 0 <= x < 0x100

  datatype Option<T> = None | Some(value: T)
}
