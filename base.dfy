/** Basic value types shared by the model: bytes, byte strings and an Option. */
module Base {

  /** A Go `byte`: arithmetic on it wraps modulo 256, which the model writes out. */
  newtype byte = x: int | 0 <= x < 256

  /** A Go `string` or `[]byte`: an uninterpreted sequence of bytes. */
  type Bytes = seq<byte>

  datatype Option<+T> = None | Some(value: T)

  /** The ASCII encoding of a literal message such as "invalid client". */
  function Ascii(s: string): (b: Bytes)
    requires forall i :: 0 <= i < |s| ==> s[i] as int < 128
    ensures |b| == |s|
    ensures forall i :: 0 <= i < |s| ==> b[i] as int == s[i] as int
  {
    seq(|s|, i requires 0 <= i < |s| => s[i] as int as byte)
  }
}
