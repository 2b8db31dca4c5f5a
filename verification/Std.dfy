/** Small types shared by the models. */
module Std {
  datatype Option<+T> = None | Some(value: T)

  type byte = n: nat | n < 256
}
