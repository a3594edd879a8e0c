/** The UTF-8 encoding of a text (section 3 of RFC 3629): what Go's len counts. */
module Utf8 {
  import opened Text

  /** The bytes of a code point. */
  function Encode(c: char): seq<int> {
    var n := c as int;
    if n < 0x80 then [n]
    else if n < 0x800 then [0xC0 + n / 64, Tail(n)]
    else if n < 0x10000 then [0xE0 + n / 4096, Tail(n / 64), Tail(n)]
    else [0xF0 + n / 262144, Tail(n / 4096), Tail(n / 64), Tail(n)]
  }

  /** A continuation byte holds six bits. */
  function Tail(n: int): int { 0x80 + n % 64 }

  /** The code point that bytes starting with b stand for, by the length its first byte announces. */
  function Decode(b: seq<int>): int {
    if |b| == 1 then b[0]
    else if |b| == 2 then (b[0] - 0xC0) * 64 + (b[1] - 0x80)
    else if |b| == 3 then (b[0] - 0xE0) * 4096 + (b[1] - 0x80) * 64 + (b[2] - 0x80)
    else if |b| == 4 then (b[0] - 0xF0) * 262144 + (b[1] - 0x80) * 4096 + (b[2] - 0x80) * 64 + (b[3] - 0x80)
    else 0
  }

  /** How many bytes a first byte announces. */
  function Announced(b: int): int {
    if b < 0x80 then 1 else if b < 0xE0 then 2 else if b < 0xF0 then 3 else 4
  }

  /** The encoding is one byte sequence a code point, from which it can be read back, of the width
      that is counted. */
  lemma EncodeIsUtf8(c: char)
    ensures var b := Encode(c);
            && |b| == Width(c) == Announced(b[0])
            && Decode(b) == c as int
            && (forall i :: 0 <= i < |b| ==> 0 <= b[i] < 256)
            && (forall i :: 1 <= i < |b| ==> 0x80 <= b[i] < 0xC0)
  {
    var n := c as int;
    Sixes(n);
  }

  lemma Sixes(n: int)
    requires 0 <= n < 0x11_0000
    ensures n == n / 64 * 64 + n % 64 == n / 4096 * 4096 + n / 64 % 64 * 64 + n % 64
    ensures n == n / 262144 * 262144 + n / 4096 % 64 * 4096 + n / 64 % 64 * 64 + n % 64
    ensures n < 0x800 ==> n / 64 < 32
    ensures n < 0x10000 ==> n / 4096 < 16
    ensures n / 262144 <= 4
  {
    assert n / 64 / 64 == n / 4096 && n / 4096 / 64 == n / 262144;
  }

  function EncodeAll(s: string): seq<int> {
    if s == [] then [] else EncodeAll(s[..|s| - 1]) + Encode(s[|s| - 1])
  }

  /** So ByteLen is the number of bytes of the encoded text. */
  lemma {:induction false} ByteLenIsEncodedLength(s: string)
    ensures ByteLen(s) == |EncodeAll(s)|
  {
    if s != [] {
      ByteLenIsEncodedLength(s[..|s| - 1]);
      EncodeIsUtf8(s[|s| - 1]);
    }
  }
}
