/** Bytes: the machine values the program works on. A Rust `String` is a
    buffer of UTF-8 bytes; `as_bytes()` and `len()` both see it as such, so
    the model represents every string by its byte sequence. */
module Bytes {

  /** A Rust `u8`. */
  newtype byte = x: int | 0 <= x < 0x100

  /** The ASCII space, the byte literal `b' '` in the source. */
  const Space: byte := 0x20

  /** True when every character of `t` is a 7-bit ASCII character, whose
      UTF-8 encoding is that single byte. */
  predicate IsAscii(t: string) {
    forall i :: 0 <= i < |t| ==> t[i] as int < 0x80
  }

  /** The UTF-8 bytes of an ASCII text: one byte per character, with the
      character's code as its value. Used to write the program's string
      literals as byte sequences. */
  function Ascii(t: string): (b: seq<byte>)
    requires IsAscii(t)
    ensures |b| == |t|
    ensures forall i :: 0 <= i < |t| ==> b[i] as int == t[i] as int
  {
    seq(|t|, i requires 0 <= i < |t| => t[i] as int as byte)
  }

  /** Encoding ASCII text distributes over concatenation. */
  lemma AsciiAppend(t: string, u: string)
    requires IsAscii(t) && IsAscii(u)
    ensures IsAscii(t + u)
    ensures Ascii(t + u) == Ascii(t) + Ascii(u)
  {
    assert forall i :: 0 <= i < |t + u| ==> (t + u)[i] == if i < |t| then t[i] else u[i - |t|];
  }
}
