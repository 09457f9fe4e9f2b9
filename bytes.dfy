/** Bytes, optional values and C strings, as the library handles them. */
module Bytes {

  /** An unsigned char. */
  newtype byte = x: int | 0 <= x < 256

  /** A value or nothing; `None` plays the part of a NULL return. */
  datatype Option<+T> = None | Some(value: T)

  /** The content of a C string: the bytes before its NUL terminator, so none of them is NUL. */
  predicate IsCString(s: seq<byte>)
  {
    forall i :: 0 <= i < |s| ==> s[i] != 0
  }

  /** The bytes of an ASCII string literal. */
  function Ascii(s: string): (r: seq<byte>)
    ensures |r| == |s|
  {
    seq(|s|, i requires 0 <= i < |s| => (s[i] as int % 256) as byte)
  }
}
