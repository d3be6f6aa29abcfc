/** Bytes, counting, minima, and lists with one element taken out. */
module Basics {
  type Byte = b: int | 0 <= b < 256

  function One(b: bool): nat {
    if b then 1 else 0
  }

  function Min(a: real, b: real): real {
    if a <= b then a else b
  }

  function Without<T>(xs: seq<T>, i: nat): seq<T>
    requires i < |xs|
  {
    xs[..i] + xs[i + 1..]
  }
}
