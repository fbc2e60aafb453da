/** Shared vocabulary: octets as a Java byte[] stores them, and optional values (Java's null). */
module Common {

  /** The bit pattern of one Java `byte`, read as an unsigned value (what `b & 0xFF` yields). */
  type byte = b: int | 0 <= b < 256

  /** An ISO-8859-1 string or a byte[]: with that charset one char is one byte. */
  type Bytes = seq<byte>

  /** A reference that may be null. */
  datatype Option<T> = None | Some(value: T)

  function Min(a: int, b: int): (m: int)
  {
    if a <= b then a else b
  }

  /** The int Java obtains when it widens a byte (sign extension); casting it back gives the byte again. */
  function Signed(b: byte): (v: int)
    ensures -128 <= v < 128
    ensures v % 256 == b
    ensures v >= 0 <==> b < 128
  {
    if b < 128 then b else b - 256
  }

  /** The bytes of an ASCII/Latin-1 literal. */
  function Latin1(s: string): (r: Bytes)
    requires forall i :: 0 <= i < |s| ==> s[i] as int < 256
    ensures |r| == |s|
    ensures forall i :: 0 <= i < |s| ==> r[i] == s[i] as int
  {
    seq(|s|, i requires 0 <= i < |s| => s[i] as int)
  }
}
