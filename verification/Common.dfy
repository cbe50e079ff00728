/**
 Types and functions that several components share.
 */
module Common {

  type Byte = x: int | 0 <= x < 256

  datatype Option<T> = None | Some(value: T)

  ghost function Elems<T>(s: seq<T>): set<T> {
    set x | x in s
  }

  // A sequence without the element at `p`.
  ghost function Without<T>(s: seq<T>, p: int): seq<T>
    requires 0 <= p < |s|
  {
    s[..p] + s[p + 1..]
  }
}
