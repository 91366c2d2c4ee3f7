/** Bytes and the ASCII subset of text, where UTF-8 encoding and decoding are
    the identity on code points. */
module Bytes {

  type byte = b: int | 0 <= b < 256

  const Newline: byte := 10

  predicate IsAsciiText(s: string) {
    forall i :: 0 <= i < |s| ==> s[i] as int < 128
  }

  predicate IsAsciiBytes(b: seq<byte>) {
    forall i :: 0 <= i < |b| ==> b[i] < 128
  }

  /** `s.encode()` for ASCII text: one byte per character, equal to its code point. */
  function AsciiBytes(s: string): (b: seq<byte>)
    requires IsAsciiText(s)
    ensures |b| == |s| && IsAsciiBytes(b)
    ensures forall i :: 0 <= i < |s| ==> b[i] == s[i] as int
  {
    seq(|s|, i requires 0 <= i < |s| => s[i] as int)
  }

  /** `b.decode()` for ASCII bytes: one character per byte. */
  function AsciiText(b: seq<byte>): (s: string)
    requires IsAsciiBytes(b)
    ensures |s| == |b| && IsAsciiText(s)
    ensures forall i :: 0 <= i < |b| ==> s[i] as int == b[i]
  {
    seq(|b|, i requires 0 <= i < |b| => b[i] as char)
  }

  /** Decoding ASCII bytes of ASCII text gives the text back. */
  lemma AsciiRoundTrip(s: string)
    requires IsAsciiText(s)
    ensures AsciiText(AsciiBytes(s)) == s
  {
  }

  lemma AsciiBytesAppend(s: string, t: string)
    requires IsAsciiText(s) && IsAsciiText(t)
    ensures IsAsciiText(s + t) && AsciiBytes(s + t) == AsciiBytes(s) + AsciiBytes(t)
  {
  }
}
