/** Types that several of the models share. */
module Basics {

  type Byte = x: nat | x < 0x100

  datatype Option<T> = None | Some(value: T)
}
