/** Value types shared by every part of the server model. */
module Base {

  /** A Go `byte`. */
  type byte = x: int | 0 <= x < 256

  /** A Go `uint16`: block numbers and error codes on the wire. */
  type u16 = x: int | 0 <= x < 65536

  datatype Option<T> = None | Some(value: T)

  /** `[]byte(s)` for the ASCII string constants of the server. */
  function Bytes(s: string): (r: seq<byte>)
    ensures |r| == |s|
  {
    seq(|s|, i requires 0 <= i < |s| => s[i] as int % 256)
  }

  /** Converting a concatenation converts each part. */
  lemma BytesAppend(a: string, b: string)
    ensures Bytes(a + b) == Bytes(a) + Bytes(b)
  {
  }

  /** Every character is a non-NUL byte value: true of the server's message constants. */
  predicate Ascii(s: string)
  {
    forall i :: 0 <= i < |s| ==> 0 < s[i] as int < 256
  }

  lemma {:induction false} AsciiHasNoNul(s: string)
    requires Ascii(s)
    ensures 0 !in Bytes(s)
  {
    if s != [] {
      AsciiHasNoNul(s[1..]);
    }
  }
}
