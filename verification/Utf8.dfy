/** The encoding whose length bounds texts: section 3 of RFC 3629. */
module Utf8 {
  import opened Numerals
  import opened Text

  function EncodeChar(c: char): seq<Byte> {
    var n := c as int;
    if n < 0x80 then [n]
    else if n < 0x800 then [0xc0 + n / 0x40, 0x80 + n % 0x40]
    else if n < 0x1_0000 then [0xe0 + n / 0x1000, 0x80 + n / 0x40 % 0x40, 0x80 + n % 0x40]
    else [0xf0 + n / 0x4_0000, 0x80 + n / 0x1000 % 0x40, 0x80 + n / 0x40 % 0x40, 0x80 + n % 0x40]
  }

  function Encode(s: string): seq<Byte> {
    if s == [] then [] else Encode(s[..|s| - 1]) + EncodeChar(s[|s| - 1])
  }

  // The six low bits of a continuation byte.
  function Low(b: Byte): int {
    b as int - 0x80
  }

  // The number of the first character, read off its leading byte and the continuation bytes that one announces.
  function FirstChar(b: seq<Byte>): int {
    if b == [] then -1
    else if b[0] < 0x80 then b[0]
    else if b[0] < 0xe0 then if |b| < 2 then -1 else 0x40 * (b[0] - 0xc0) + Low(b[1])
    else if b[0] < 0xf0 then if |b| < 3 then -1 else 0x1000 * (b[0] - 0xe0) + 0x40 * Low(b[1]) + Low(b[2])
    else if |b| < 4 then -1 else 0x4_0000 * (b[0] - 0xf0) + 0x1000 * Low(b[1]) + 0x40 * Low(b[2]) + Low(b[3])
  }

  // What follows a character does not change how it is read.
  lemma CharReads(c: char, rest: seq<Byte>)
    ensures FirstChar(EncodeChar(c) + rest) == c as int
    ensures |EncodeChar(c)| == CharBytes(c)
  {
    var n := c as int;
    assert n == 0x40 * (n / 0x40) + n % 0x40;
    assert n / 0x40 == 0x40 * (n / 0x1000) + n / 0x40 % 0x40;
    assert n / 0x1000 == 0x40 * (n / 0x4_0000) + n / 0x1000 % 0x40;
  }

  // The length the limits speak of is the length of the encoded text.
  lemma {:induction false} LengthIsEncoded(s: string)
    ensures Utf8Length(s) == |Encode(s)|
  {
    if s != [] {
      LengthIsEncoded(s[..|s| - 1]);
      CharReads(s[|s| - 1], []);
    }
  }
}
