/** The two byte encodings the key handling applies to library output:
    PKCS#7 padding to the 16-byte AES block (section 6.3 of RFC 5652),
    which aes-js applies before CBC encryption, and base64 (section 4 of
    RFC 4648), which `btoa(String.fromCharCode(...bytes))` computes, and
    the hex text of aes-js `utils.hex.fromBytes`. */
module Encodings {
  import opened Bytes
  import opened Wrappers
  import AesUtils

  const BlockSize: nat := 16

  // ---------------------------------------------------------------------
  // PKCS#7
  // ---------------------------------------------------------------------

  /** Pad with k bytes of value k, where k in 1..16 brings the length to
      the next multiple of 16 (a whole block when already aligned). */
  function Pkcs7Pad(data: seq<byte>): seq<byte> {
    var k := BlockSize - |data| % BlockSize;
    data + seq(k, _ => k as byte)
  }

  /** Remove PKCS#7 padding; fails when the length is not a positive
      multiple of 16, the last byte is not in 1..16, or the padding bytes
      differ from it. */
  function Pkcs7Unpad(data: seq<byte>): Option<seq<byte>> {
    if |data| == 0 || |data| % BlockSize != 0 then None
    else
      var k := data[|data| - 1] as int;
      if k < 1 || k > BlockSize then None
      else if exists i :: |data| - k <= i < |data| && data[i] != k as byte then None
      else Some(data[..|data| - k])
  }

  /** The padded text is block-aligned, one to sixteen bytes longer, and
      begins with the data. */
  lemma Pkcs7PadShape(data: seq<byte>)
    ensures |Pkcs7Pad(data)| % BlockSize == 0
    ensures |data| < |Pkcs7Pad(data)| <= |data| + BlockSize
    ensures Pkcs7Pad(data)[..|data|] == data
    ensures |data| % BlockSize == 0 ==> |Pkcs7Pad(data)| == |data| + BlockSize
  {
    var k := BlockSize - |data| % BlockSize;
    var q := |data| / BlockSize;
    assert |data| == BlockSize * q + |data| % BlockSize;
    assert |data| + k == BlockSize * (q + 1);
    assert Pkcs7Pad(data)[..|data|] == data;
  }

  /** Unpadding inverts padding. */
  lemma Pkcs7RoundTrip(data: seq<byte>)
    ensures Pkcs7Unpad(Pkcs7Pad(data)) == Some(data)
  {
    Pkcs7PadShape(data);
    var p := Pkcs7Pad(data);
    var k := BlockSize - |data| % BlockSize;
    assert |p| == |data| + k;
    assert p[|p| - 1] as int == k;
    assert forall i :: |p| - k <= i < |p| ==> p[i] == k as byte;
    assert p[..|p| - k] == data;
  }

  /** Padding is injective: different data never pad to the same bytes. */
  lemma Pkcs7PadInjective(a: seq<byte>, b: seq<byte>)
    requires Pkcs7Pad(a) == Pkcs7Pad(b)
    ensures a == b
  {
    Pkcs7RoundTrip(a);
    Pkcs7RoundTrip(b);
  }

  // ---------------------------------------------------------------------
  // Base64
  // ---------------------------------------------------------------------

  /** The character of a 6-bit value in the base64 alphabet. */
  function Base64Char(v: nat): char
    requires v < 64
  {
    if v < 26 then ('A' as int + v) as char
    else if v < 52 then ('a' as int + (v - 26)) as char
    else if v < 62 then ('0' as int + (v - 52)) as char
    else if v == 62 then '+'
    else '/'
  }

  /** The 6-bit value of a base64 character; None for any other. */
  function Base64Value(c: char): Option<nat> {
    if 'A' <= c <= 'Z' then Some(c as int - 'A' as int)
    else if 'a' <= c <= 'z' then Some(c as int - 'a' as int + 26)
    else if '0' <= c <= '9' then Some(c as int - '0' as int + 52)
    else if c == '+' then Some(62)
    else if c == '/' then Some(63)
    else None
  }

  lemma Base64ValueOfChar(v: nat)
    requires v < 64
    ensures Base64Value(Base64Char(v)) == Some(v)
  {
  }

  /** The four characters of up to three bytes, `=`-padded. */
  function EncodeGroup(g: seq<byte>): (r: string)
    requires 1 <= |g| <= 3
    ensures |r| == 4
  {
    var b0 := g[0] as nat;
    var b1 := if |g| > 1 then g[1] as nat else 0;
    var b2 := if |g| > 2 then g[2] as nat else 0;
    var c0 := Base64Char(b0 / 4);
    var c1 := Base64Char((b0 % 4) * 16 + b1 / 16);
    var c2 := if |g| > 1 then Base64Char((b1 % 16) * 4 + b2 / 64) else '=';
    var c3 := if |g| > 2 then Base64Char(b2 % 64) else '=';
    [c0, c1, c2, c3]
  }

  /** The base64 text of a byte string. */
  function Base64Encode(b: seq<byte>): string
    decreases |b|
  {
    if |b| == 0 then ""
    else if |b| <= 3 then EncodeGroup(b)
    else EncodeGroup(b[..3]) + Base64Encode(b[3..])
  }

  lemma {:induction false} Base64EncodeLength(b: seq<byte>)
    ensures |Base64Encode(b)| == 4 * ((|b| + 2) / 3)
    decreases |b|
  {
    if |b| > 3 {
      Base64EncodeLength(b[3..]);
      assert |EncodeGroup(b[..3])| == 4;
      assert (|b| + 2) / 3 == (|b[3..]| + 2) / 3 + 1;
    }
  }

  /** The bytes of one four-character group; `=` may stand only in the
      last two places and only in the final group. */
  function DecodeGroup(g: string, last: bool): Option<seq<byte>>
    requires |g| == 4
  {
    var v0 := Base64Value(g[0]);
    var v1 := Base64Value(g[1]);
    if v0.None? || v1.None? then None
    else
      var d0, d1 := v0.value, v1.value;
      var x0 := (d0 * 4 + d1 / 16) as byte;
      if last && g[2] == '=' && g[3] == '=' then Some([x0])
      else
        var v2 := Base64Value(g[2]);
        if v2.None? then None
        else
          var d2 := v2.value;
          var x1 := ((d1 % 16) * 16 + d2 / 4) as byte;
          if last && g[3] == '=' then Some([x0, x1])
          else
            var v3 := Base64Value(g[3]);
            if v3.None? then None
            else Some([x0, x1, ((d2 % 4) * 64 + v3.value) as byte])
  }

  /** Decode base64 text; None for text that is not a sequence of
      well-formed groups. */
  function Base64Decode(s: string): Option<seq<byte>>
    decreases |s|
  {
    if |s| == 0 then Some([])
    else if |s| < 4 then None
    else if |s| == 4 then DecodeGroup(s, true)
    else
      match DecodeGroup(s[..4], false)
      case None => None
      case Some(head) =>
        match Base64Decode(s[4..])
        case None => None
        case Some(tail) => Some(head + tail)
  }

  /** `(hi * m + lo) / m == hi` and the remainder is lo. */
  lemma DivModParts(hi: nat, lo: nat, m: nat)
    requires m == 4 || m == 16 || m == 64
    requires 0 <= lo < m
    ensures (hi * m + lo) / m == hi && (hi * m + lo) % m == lo
  {
    if m == 4 {
      assert hi * m + lo == 4 * hi + lo;
    } else if m == 16 {
      assert hi * m + lo == 16 * hi + lo;
    } else {
      assert hi * m + lo == 64 * hi + lo;
    }
  }

  /** Three bytes cut into four 6-bit values and joined again. */
  lemma SixBitSplit(b0: nat, b1: nat, b2: nat)
    requires b0 < 256 && b1 < 256 && b2 < 256
    ensures var d0, d1, d2, d3 := b0 / 4, (b0 % 4) * 16 + b1 / 16, (b1 % 16) * 4 + b2 / 64, b2 % 64;
      && d0 < 64 && d1 < 64 && d2 < 64 && d3 < 64
      && d0 * 4 + d1 / 16 == b0
      && (d1 % 16) * 16 + d2 / 4 == b1
      && (d2 % 4) * 64 + d3 == b2
  {
    DivModParts(b0 % 4, b1 / 16, 16);
    DivModParts(b1 % 16, b2 / 64, 4);
  }

  /** A group whose four places hold base64 characters decodes to the
      three bytes their values make. */
  lemma DecodeFullGroup(e: string, d0: nat, d1: nat, d2: nat, d3: nat, b0: byte, b1: byte, b2: byte, last: bool)
    requires |e| == 4 && d0 < 64 && d1 < 64 && d2 < 64 && d3 < 64
    requires Base64Value(e[0]) == Some(d0) && Base64Value(e[1]) == Some(d1)
    requires Base64Value(e[2]) == Some(d2) && Base64Value(e[3]) == Some(d3)
    requires e[2] != '=' && e[3] != '='
    requires d0 * 4 + d1 / 16 == b0 as int && (d1 % 16) * 16 + d2 / 4 == b1 as int && (d2 % 4) * 64 + d3 == b2 as int
    ensures DecodeGroup(e, last) == Some([b0, b1, b2])
  {
  }

  /** A final group ending in one `=` decodes to two bytes. */
  lemma DecodePaddedGroup(e: string, d0: nat, d1: nat, d2: nat, b0: byte, b1: byte)
    requires |e| == 4 && d0 < 64 && d1 < 64 && d2 < 64
    requires Base64Value(e[0]) == Some(d0) && Base64Value(e[1]) == Some(d1)
    requires Base64Value(e[2]) == Some(d2)
    requires e[2] != '=' && e[3] == '='
    requires d0 * 4 + d1 / 16 == b0 as int && (d1 % 16) * 16 + d2 / 4 == b1 as int
    ensures DecodeGroup(e, true) == Some([b0, b1])
  {
  }

  /** A final group ending in `==` decodes to one byte. */
  lemma DecodeDoublePaddedGroup(e: string, d0: nat, d1: nat, b0: byte)
    requires |e| == 4 && d0 < 64 && d1 < 64
    requires Base64Value(e[0]) == Some(d0) && Base64Value(e[1]) == Some(d1)
    requires e[2] == '=' && e[3] == '='
    requires d0 * 4 + d1 / 16 == b0 as int
    ensures DecodeGroup(e, true) == Some([b0])
  {
  }

  lemma DecodeEncodeOne(b0: byte)
    ensures DecodeGroup(EncodeGroup([b0]), true) == Some([b0])
  {
    var x0 := b0 as nat;
    SixBitSplit(x0, 0, 0);
    var d0, d1 := x0 / 4, (x0 % 4) * 16;
    Base64ValueOfChar(d0);
    Base64ValueOfChar(d1);
    var e := EncodeGroup([b0]);
    assert e == [Base64Char(d0), Base64Char(d1), '=', '='];
    DecodeDoublePaddedGroup(e, d0, d1, b0);
  }

  lemma DecodeEncodeTwo(b0: byte, b1: byte)
    ensures DecodeGroup(EncodeGroup([b0, b1]), true) == Some([b0, b1])
  {
    var x0, x1 := b0 as nat, b1 as nat;
    SixBitSplit(x0, x1, 0);
    var d0, d1, d2 := x0 / 4, (x0 % 4) * 16 + x1 / 16, (x1 % 16) * 4;
    Base64ValueOfChar(d0);
    Base64ValueOfChar(d1);
    Base64ValueOfChar(d2);
    var e := EncodeGroup([b0, b1]);
    assert e == [Base64Char(d0), Base64Char(d1), Base64Char(d2), '='];
    DecodePaddedGroup(e, d0, d1, d2, b0, b1);
  }

  lemma DecodeEncodeThree(b0: byte, b1: byte, b2: byte, last: bool)
    ensures DecodeGroup(EncodeGroup([b0, b1, b2]), last) == Some([b0, b1, b2])
  {
    var x0, x1, x2 := b0 as nat, b1 as nat, b2 as nat;
    SixBitSplit(x0, x1, x2);
    var d0, d1, d2, d3 := x0 / 4, (x0 % 4) * 16 + x1 / 16, (x1 % 16) * 4 + x2 / 64, x2 % 64;
    Base64ValueOfChar(d0);
    Base64ValueOfChar(d1);
    Base64ValueOfChar(d2);
    Base64ValueOfChar(d3);
    var e := EncodeGroup([b0, b1, b2]);
    assert e == [Base64Char(d0), Base64Char(d1), Base64Char(d2), Base64Char(d3)];
    DecodeFullGroup(e, d0, d1, d2, d3, b0, b1, b2, last);
  }

  lemma DecodeEncodeGroup(g: seq<byte>, last: bool)
    requires 1 <= |g| <= 3
    requires |g| < 3 ==> last
    ensures DecodeGroup(EncodeGroup(g), last) == Some(g)
  {
    if |g| == 1 {
      assert g == [g[0]];
      DecodeEncodeOne(g[0]);
    } else if |g| == 2 {
      assert g == [g[0], g[1]];
      DecodeEncodeTwo(g[0], g[1]);
    } else {
      assert g == [g[0], g[1], g[2]];
      DecodeEncodeThree(g[0], g[1], g[2], last);
    }
  }

  /** Round trip: decoding the base64 text of a byte string gives it back. */
  lemma {:induction false} Base64RoundTrip(b: seq<byte>)
    ensures Base64Decode(Base64Encode(b)) == Some(b)
    decreases |b|
  {
    if |b| == 0 {
    } else if |b| <= 3 {
      DecodeEncodeGroup(b, true);
    } else {
      var head, rest := EncodeGroup(b[..3]), Base64Encode(b[3..]);
      var s := head + rest;
      Base64EncodeLength(b[3..]);
      assert s[..4] == head && s[4..] == rest;
      DecodeEncodeGroup(b[..3], false);
      Base64RoundTrip(b[3..]);
      assert b[..3] + b[3..] == b;
    }
  }

  /** Base64 is injective: equal texts come from equal bytes. */
  lemma Base64Injective(a: seq<byte>, b: seq<byte>)
    requires Base64Encode(a) == Base64Encode(b)
    ensures a == b
  {
    Base64RoundTrip(a);
    Base64RoundTrip(b);
  }

  // ---------------------------------------------------------------------
  // Hex text of a byte string
  // ---------------------------------------------------------------------

  function ByteValues(b: seq<byte>): (r: seq<int>)
    ensures |r| == |b| && AesUtils.AllBytes(r)
    ensures forall i :: 0 <= i < |b| ==> r[i] == b[i] as int
  {
    seq(|b|, i requires 0 <= i < |b| => b[i] as int)
  }

  /** aes-js `utils.hex.fromBytes`: two lower-case hex digits per byte, the
      same text as the byte-array helper of the AES utility file. */
  function HexFromBytes(b: seq<byte>): string {
    AesUtils.ByteArrayToHex(ByteValues(b))
  }

  /** The hex text is twice as long as the bytes and parses back to them. */
  lemma HexFromBytesRoundTrip(b: seq<byte>)
    ensures |HexFromBytes(b)| == 2 * |b|
    ensures AesUtils.HexToNums(HexFromBytes(b)) == AesUtils.Nums(ByteValues(b))
  {
    AesUtils.ByteArrayToHexLength(ByteValues(b));
    AesUtils.HexRoundTrip(ByteValues(b));
  }
}
