/**
 * The URL- and filename-safe base64 alphabet of section 5 of RFC 4648, as
 * produced by Python's `base64.urlsafe_b64encode`, the `.replace('=', '')`
 * that strips its padding, and a decoder used to state the round trip: it
 * takes a multiple of four characters with `=` only in the last group, and
 * does not reject non-zero pad bits.
 */
module Base64Url {
  import opened Wrappers
  import opened Bytes

  type sextet = v: int | 0 <= v < 64

  const PadChar: char := '='

  /** Membership in `[A-Za-z0-9_-]`. */
  predicate IsUrlSafe(c: char) {
    ('A' <= c <= 'Z') || ('a' <= c <= 'z') || ('0' <= c <= '9') || c == '-' || c == '_'
  }

  predicate IsUrlSafeText(s: string) {
    forall i | 0 <= i < |s| :: IsUrlSafe(s[i])
  }

  /** Table 2 of RFC 4648: value to character. */
  function CharOf(v: sextet): (c: char)
    ensures IsUrlSafe(c)
  {
    if v < 26 then ('A' as int + v) as char
    else if v < 52 then ('a' as int + (v - 26)) as char
    else if v < 62 then ('0' as int + (v - 52)) as char
    else if v == 62 then '-'
    else '_'
  }

  /** Table 2 of RFC 4648: character to value; `None` outside the alphabet. */
  function ValueOf(c: char): (r: Option<sextet>)
    ensures r.Some? <==> IsUrlSafe(c)
  {
    if 'A' <= c <= 'Z' then Some(c as int - 'A' as int)
    else if 'a' <= c <= 'z' then Some(c as int - 'a' as int + 26)
    else if '0' <= c <= '9' then Some(c as int - '0' as int + 52)
    else if c == '-' then Some(62)
    else if c == '_' then Some(63)
    else None
  }

  lemma ValueOfCharOf(v: sextet)
    ensures ValueOf(CharOf(v)) == Some(v)
  {
  }

  lemma CharOfValueOf(c: char)
    requires IsUrlSafe(c)
    ensures CharOf(ValueOf(c).value) == c
  {
  }

  // The four sextets of a three-byte group, most significant bits first.
  function S0(b0: byte): sextet { b0 / 4 }
  function S1(b0: byte, b1: byte): sextet { (b0 % 4) * 16 + b1 / 16 }
  function S2(b1: byte, b2: byte): sextet { (b1 % 16) * 4 + b2 / 64 }
  function S3(b2: byte): sextet { b2 % 64 }

  function Quad(b0: byte, b1: byte, b2: byte): string {
    [CharOf(S0(b0)), CharOf(S1(b0, b1)), CharOf(S2(b1, b2)), CharOf(S3(b2))]
  }

  /** The unpadded text of a final group of one byte (two characters). */
  function Tail1(b0: byte): string {
    [CharOf(S0(b0)), CharOf(S1(b0, 0))]
  }

  /** The unpadded text of a final group of two bytes (three characters). */
  function Tail2(b0: byte, b1: byte): string {
    [CharOf(S0(b0)), CharOf(S1(b0, b1)), CharOf(S2(b1, 0))]
  }

  /** `base64.urlsafe_b64encode`: padded with `=` to a multiple of four characters. */
  function Encode(data: seq<byte>): (s: string)
    ensures |s| == 4 * ((|data| + 2) / 3)
    decreases |data|
  {
    if |data| == 0 then ""
    else if |data| == 1 then Tail1(data[0]) + "=="
    else if |data| == 2 then Tail2(data[0], data[1]) + "="
    else Quad(data[0], data[1], data[2]) + Encode(data[3..])
  }

  /**
   * Unpadded encoding (section 3.2 of RFC 4648 permits omitting the padding),
   * defined group by group without ever producing `=`.
   */
  function EncodeNoPad(data: seq<byte>): (s: string)
    ensures |s| == (4 * |data| + 2) / 3
    ensures IsUrlSafeText(s)
    decreases |data|
  {
    if |data| == 0 then ""
    else if |data| == 1 then Tail1(data[0])
    else if |data| == 2 then Tail2(data[0], data[1])
    else Quad(data[0], data[1], data[2]) + EncodeNoPad(data[3..])
  }

  /** `s.replace('=', '')`: every `=` removed, everything else kept in order. */
  function StripPadding(s: string): (r: string)
    ensures PadChar !in r
    ensures |r| <= |s|
  {
    if |s| == 0 then ""
    else if s[0] == PadChar then StripPadding(s[1..])
    else [s[0]] + StripPadding(s[1..])
  }

  /** The number of `=` needed to bring `n` characters to a multiple of four. */
  function PadCount(n: nat): nat {
    (4 - n % 4) % 4
  }

  function Padding(k: nat): (s: string)
    ensures |s| == k
    ensures forall i | 0 <= i < k :: s[i] == PadChar
  {
    if k == 0 then "" else [PadChar] + Padding(k - 1)
  }

  /** Restores the padding that `StripPadding` removed. */
  function Repad(s: string): (r: string)
    ensures |r| % 4 == 0
  {
    s + Padding(PadCount(|s|))
  }

  /** Three bytes from four alphabet characters. */
  function DecodeQuad(q: string): Option<seq<byte>>
    requires |q| == 4
  {
    var v0 := ValueOf(q[0]);
    var v1 := ValueOf(q[1]);
    var v2 := ValueOf(q[2]);
    var v3 := ValueOf(q[3]);
    if v0.None? || v1.None? || v2.None? || v3.None? then None
    else
      var a, b, c, d := v0.value, v1.value, v2.value, v3.value;
      Some([a * 4 + b / 16, (b % 16) * 16 + c / 4, (c % 4) * 64 + d])
  }

  /**
   * Decoding of padded text: the length must be a multiple of four and `=`
   * may only close the last group. Non-zero pad bits are not rejected.
   */
  function Decode(s: string): (r: Option<seq<byte>>)
    decreases |s|
  {
    if |s| == 0 then Some([])
    else if |s| < 4 then None
    else if |s| == 4 && s[2] == PadChar && s[3] == PadChar then
      var v0 := ValueOf(s[0]);
      var v1 := ValueOf(s[1]);
      if v0.None? || v1.None? then None
      else Some([v0.value * 4 + v1.value / 16])
    else if |s| == 4 && s[3] == PadChar then
      var v0 := ValueOf(s[0]);
      var v1 := ValueOf(s[1]);
      var v2 := ValueOf(s[2]);
      if v0.None? || v1.None? || v2.None? then None
      else Some([v0.value * 4 + v1.value / 16,
                 (v1.value % 16) * 16 + v2.value / 4])
    else
      match DecodeQuad(s[..4])
      case None => None
      case Some(head) =>
        match Decode(s[4..])
        case None => None
        case Some(rest) => Some(head + rest)
  }

  lemma {:induction false} StripPaddingAppend(a: string, b: string)
    ensures StripPadding(a + b) == StripPadding(a) + StripPadding(b)
  {
    if |a| == 0 {
      assert a + b == b;
    } else {
      assert (a + b)[0] == a[0];
      assert (a + b)[1..] == a[1..] + b;
      StripPaddingAppend(a[1..], b);
    }
  }

  /** Text without `=` has nothing to strip. */
  lemma {:induction false} StripPaddingOfUnpadded(s: string)
    requires PadChar !in s
    ensures StripPadding(s) == s
  {
    if |s| > 0 {
      assert s[0] != PadChar;
      assert PadChar !in s[1..] by {
        assert s == [s[0]] + s[1..];
      }
      StripPaddingOfUnpadded(s[1..]);
      assert s == [s[0]] + s[1..];
    }
  }

  /** No character of the alphabet is `=`. */
  lemma NoPadInUrlSafe(s: string)
    requires IsUrlSafeText(s)
    ensures PadChar !in s
  {
    forall i | 0 <= i < |s|
      ensures s[i] != PadChar
    {
      assert IsUrlSafe(s[i]);
    }
  }

  lemma {:induction false} StripPaddingOfPadding(k: nat)
    ensures StripPadding(Padding(k)) == ""
  {
    if k > 0 {
      assert Padding(k)[1..] == Padding(k - 1);
      StripPaddingOfPadding(k - 1);
    }
  }

  lemma PadCountShift(m: nat)
    ensures PadCount(4 + m) == PadCount(m)
  {
  }

  /** A final group of one byte: two characters and `==`. */
  lemma EncodeOneByte(data: seq<byte>)
    requires |data| == 1
    ensures Encode(data) == EncodeNoPad(data) + Padding(PadCount(|EncodeNoPad(data)|))
  {
    assert |EncodeNoPad(data)| == 2;
    assert PadCount(2) == 2;
    assert Padding(2) == "==";
  }

  /** A final group of two bytes: three characters and `=`. */
  lemma EncodeTwoBytes(data: seq<byte>)
    requires |data| == 2
    ensures Encode(data) == EncodeNoPad(data) + Padding(PadCount(|EncodeNoPad(data)|))
  {
    assert |EncodeNoPad(data)| == 3;
    assert PadCount(3) == 1;
    assert Padding(1) == "=";
  }

  /** The padded encoding is the unpadded one followed by exactly the `=` that `Repad` restores. */
  lemma {:induction false} EncodeIsNoPadPlusPadding(data: seq<byte>)
    ensures Encode(data) == EncodeNoPad(data) + Padding(PadCount(|EncodeNoPad(data)|))
    decreases |data|
  {
    if |data| == 0 {
      assert PadCount(0) == 0;
    } else if |data| == 1 {
      EncodeOneByte(data);
    } else if |data| == 2 {
      EncodeTwoBytes(data);
    } else {
      EncodeIsNoPadPlusPadding(data[3..]);
      EncodeGroupStep(data);
      PrependGroup(Quad(data[0], data[1], data[2]), EncodeNoPad(data[3..]), Encode(data[3..]));
    }
  }

  /** Prepending a full group keeps the padding rule. */
  lemma PrependGroup(q: string, n: string, e: string)
    requires |q| == 4 && e == n + Padding(PadCount(|n|))
    ensures q + e == (q + n) + Padding(PadCount(|q + n|))
  {
    PadCountShift(|n|);
    assert |q + n| == 4 + |n|;
  }

  /** Both encoders emit the same four characters for a leading three-byte group. */
  lemma EncodeGroupStep(data: seq<byte>)
    requires |data| >= 3
    ensures Encode(data) == Quad(data[0], data[1], data[2]) + Encode(data[3..])
    ensures EncodeNoPad(data) == Quad(data[0], data[1], data[2]) + EncodeNoPad(data[3..])
    ensures |EncodeNoPad(data)| == 4 + |EncodeNoPad(data[3..])|
  {
  }

  /** `urlsafe_b64encode(x).replace('=', '')` is the unpadded encoding. */
  lemma StripEncode(data: seq<byte>)
    ensures StripPadding(Encode(data)) == EncodeNoPad(data)
  {
    var k := PadCount(|EncodeNoPad(data)|);
    EncodeIsNoPadPlusPadding(data);
    StripPaddingAppend(EncodeNoPad(data), Padding(k));
    NoPadInUrlSafe(EncodeNoPad(data));
    StripPaddingOfUnpadded(EncodeNoPad(data));
    StripPaddingOfPadding(k);
  }

  lemma RepadNoPad(data: seq<byte>)
    ensures Repad(EncodeNoPad(data)) == Encode(data)
  {
    EncodeIsNoPadPlusPadding(data);
  }

  // Reassembling each byte from the sextets that carry its bits.
  lemma Byte0FromSextets(b0: byte, b1: byte)
    ensures S0(b0) * 4 + S1(b0, b1) / 16 == b0
  {
  }

  lemma Byte1FromSextets(b0: byte, b1: byte, b2: byte)
    ensures (S1(b0, b1) % 16) * 16 + S2(b1, b2) / 4 == b1
  {
  }

  lemma Byte2FromSextets(b1: byte, b2: byte)
    ensures (S2(b1, b2) % 4) * 64 + S3(b2) == b2
  {
  }

  lemma QuadRoundTrip(b0: byte, b1: byte, b2: byte)
    ensures DecodeQuad(Quad(b0, b1, b2)) == Some([b0, b1, b2])
  {
    var q := Quad(b0, b1, b2);
    ValueOfCharOf(S0(b0));
    ValueOfCharOf(S1(b0, b1));
    ValueOfCharOf(S2(b1, b2));
    ValueOfCharOf(S3(b2));
    assert ValueOf(q[0]) == Some(S0(b0));
    assert ValueOf(q[1]) == Some(S1(b0, b1));
    assert ValueOf(q[2]) == Some(S2(b1, b2));
    assert ValueOf(q[3]) == Some(S3(b2));
    Byte0FromSextets(b0, b1);
    Byte1FromSextets(b0, b1, b2);
    Byte2FromSextets(b1, b2);
  }

  lemma DecodeTail1(b0: byte)
    ensures Decode(Tail1(b0) + "==") == Some([b0])
  {
    var s := Tail1(b0) + "==";
    ValueOfCharOf(S0(b0));
    ValueOfCharOf(S1(b0, 0));
    assert ValueOf(s[0]) == Some(S0(b0));
    assert ValueOf(s[1]) == Some(S1(b0, 0));
    Byte0FromSextets(b0, 0);
  }

  lemma DecodeTail2(b0: byte, b1: byte)
    ensures Decode(Tail2(b0, b1) + "=") == Some([b0, b1])
  {
    var s := Tail2(b0, b1) + "=";
    ValueOfCharOf(S0(b0));
    ValueOfCharOf(S1(b0, b1));
    ValueOfCharOf(S2(b1, 0));
    assert ValueOf(s[0]) == Some(S0(b0));
    assert ValueOf(s[1]) == Some(S1(b0, b1));
    assert ValueOf(s[2]) == Some(S2(b1, 0));
    assert s[2] != PadChar && s[3] == PadChar;
    Byte0FromSextets(b0, b1);
    Byte1FromSextets(b0, b1, 0);
  }

  /** A full group followed by decodable text decodes to the group's bytes followed by the rest. */
  lemma DecodeQuadThen(b0: byte, b1: byte, b2: byte, t: string, rest: seq<byte>)
    requires Decode(t) == Some(rest)
    ensures Decode(Quad(b0, b1, b2) + t) == Some([b0, b1, b2] + rest)
  {
    var q := Quad(b0, b1, b2);
    var s := q + t;
    assert s[..4] == q;
    assert s[4..] == t;
    assert s[3] != PadChar;
    QuadRoundTrip(b0, b1, b2);
  }

  /** Decoding undoes the padded encoding. */
  lemma {:induction false} DecodeEncode(data: seq<byte>)
    ensures Decode(Encode(data)) == Some(data)
    decreases |data|
  {
    if |data| == 0 {
      assert Encode(data) == "";
    } else if |data| <= 2 {
      DecodeEncodeShort(data);
    } else {
      DecodeEncode(data[3..]);
      DecodeEncodeGroup(data);
    }
  }

  lemma DecodeEncodeShort(data: seq<byte>)
    requires 1 <= |data| <= 2
    ensures Decode(Encode(data)) == Some(data)
  {
    EncodeShort(data);
    if |data| == 1 {
      DecodeTail1(data[0]);
      assert data == [data[0]];
    } else {
      DecodeTail2(data[0], data[1]);
      assert data == [data[0], data[1]];
    }
  }

  lemma DecodeEncodeGroup(data: seq<byte>)
    requires |data| >= 3
    requires Decode(Encode(data[3..])) == Some(data[3..])
    ensures Decode(Encode(data)) == Some(data)
  {
    EncodeGroupStep(data);
    DecodeQuadThen(data[0], data[1], data[2], Encode(data[3..]), data[3..]);
    SplitGroup(data);
  }

  /** The group split, stated apart from the decoder terms of the caller. */
  lemma SplitGroup(data: seq<byte>)
    requires |data| >= 3
    ensures data == [data[0], data[1], data[2]] + data[3..]
  {
  }

  /** The padded text of one or two final bytes. */
  lemma EncodeShort(data: seq<byte>)
    requires 1 <= |data| <= 2
    ensures |data| == 1 ==> Encode(data) == Tail1(data[0]) + "=="
    ensures |data| == 2 ==> Encode(data) == Tail2(data[0], data[1]) + "="
  {
  }

  /** Re-padding the stripped text and decoding it gives back the original bytes. */
  lemma DecodeRepadNoPad(data: seq<byte>)
    ensures Decode(Repad(EncodeNoPad(data))) == Some(data)
  {
    RepadNoPad(data);
    DecodeEncode(data);
  }

  /** Distinct byte strings never share an unpadded encoding. */
  lemma EncodeNoPadInjective(a: seq<byte>, b: seq<byte>)
    requires EncodeNoPad(a) == EncodeNoPad(b)
    ensures a == b
  {
    DecodeRepadNoPad(a);
    DecodeRepadNoPad(b);
  }
}
