/** Bytes and the two byte encodings of text that the PKCE helper relies on. */
module Bytes {

  type byte = b: int | 0 <= b < 256

  /** A character of the 7-bit ASCII range. */
  predicate IsAscii(c: char) {
    c as int < 128
  }

  predicate AllAscii(s: string) {
    forall i | 0 <= i < |s| :: IsAscii(s[i])
  }

  /** UTF-8 encoding of one Unicode scalar value (RFC 3629, section 3). */
  function Utf8Char(c: char): (bs: seq<byte>)
    ensures 1 <= |bs| <= 4
    ensures |bs| == 1 <==> IsAscii(c)
    ensures IsAscii(c) ==> bs == [c as int]
  {
    var cp := c as int;
    if cp < 0x80 then [cp]
    else if cp < 0x800 then [0xC0 + cp / 64, 0x80 + cp % 64]
    else if cp < 0x1_0000 then [0xE0 + cp / 4096, 0x80 + (cp / 64) % 64, 0x80 + cp % 64]
    else [0xF0 + cp / 262144, 0x80 + (cp / 4096) % 64, 0x80 + (cp / 64) % 64, 0x80 + cp % 64]
  }

  /** `str.encode()`: the UTF-8 bytes of a string. */
  function Utf8(s: string): (bs: seq<byte>)
    ensures |bs| >= |s|
  {
    if |s| == 0 then [] else Utf8Char(s[0]) + Utf8(s[1..])
  }

  /** The ASCII bytes of a string made of ASCII characters only. */
  function Ascii(s: string): (bs: seq<byte>)
    requires AllAscii(s)
    ensures |bs| == |s|
    ensures forall i | 0 <= i < |s| :: bs[i] == s[i] as int
  {
    seq(|s|, i requires 0 <= i < |s| => s[i] as int)
  }

  /** On ASCII text the UTF-8 bytes are exactly the ASCII bytes. */
  lemma {:induction false} Utf8OfAscii(s: string)
    requires AllAscii(s)
    ensures Utf8(s) == Ascii(s)
  {
    if |s| > 0 {
      assert AllAscii(s[1..]) by {
        forall i | 0 <= i < |s[1..]| ensures IsAscii(s[1..][i]) {
          assert s[1..][i] == s[i + 1];
        }
      }
      Utf8OfAscii(s[1..]);
      assert Utf8(s) == [s[0] as int] + Ascii(s[1..]);
    }
  }

  /** UTF-8 keeps one byte per character exactly when the text is ASCII. */
  lemma {:induction false} Utf8LengthIffAscii(s: string)
    ensures |Utf8(s)| == |s| <==> AllAscii(s)
  {
    if |s| > 0 {
      Utf8LengthIffAscii(s[1..]);
      assert AllAscii(s) <==> IsAscii(s[0]) && AllAscii(s[1..]) by {
        if IsAscii(s[0]) && AllAscii(s[1..]) {
          forall i | 0 <= i < |s| ensures IsAscii(s[i]) {
            if i > 0 { assert s[i] == s[1..][i - 1]; }
          }
        }
        if AllAscii(s) {
          forall i | 0 <= i < |s[1..]| ensures IsAscii(s[1..][i]) {
            assert s[1..][i] == s[i + 1];
          }
        }
      }
    }
  }
}
