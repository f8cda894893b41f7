// Types shared by the layers.

module Wrappers {
  datatype Option<+T> = None | Some(value: T)
}

module Bytes {
  type Byte = x: int | 0 <= x < 256

  type Bytes = seq<Byte>

  function Zeroes(n: nat): (r: Bytes)
    ensures |r| == n
  {
    seq(n, i => 0)
  }
}
