/** Raw bytes, as Go's `[]byte` holds them, and the ASCII codes the
    extraction parser looks for. */
module Bytes {

  newtype byte = x: int | 0 <= x < 256

  const Space: byte := 0x20
  const Newline: byte := 0x0A
  const Comma: byte := 0x2C
  const OpenBrace: byte := 0x7B
  const CloseBrace: byte := 0x7D
  const DigitZero: byte := 0x30
  const LetterX: byte := 0x78

  predicate IsAscii(s: string)
  {
    forall i :: 0 <= i < |s| ==> s[i] as int < 128
  }

  /** The bytes of an ASCII string, one byte per character (Go's `[]byte(s)`
      for such a string). */
  function Ascii(s: string): (b: seq<byte>)
    requires IsAscii(s)
    ensures |b| == |s|
    ensures forall i :: 0 <= i < |s| ==> b[i] as int == s[i] as int
  {
    seq(|s|, i requires 0 <= i < |s| => s[i] as int as byte)
  }

  lemma AsciiAppend(a: string, b: string, ab: string)
    requires IsAscii(a) && IsAscii(b) && a + b == ab
    ensures IsAscii(ab) && Ascii(ab) == Ascii(a) + Ascii(b)
  {
    assert forall i :: 0 <= i < |ab| ==> ab[i] == if i < |a| then a[i] else b[i - |a|];
  }
}
