/** The self-contained helpers of the client's AES utility file: hex
    conversion of byte arrays, null padding to the 16-byte block size and
    its removal, and the counter block of the CTR functions. The aes-js
    cipher calls around them are not part of this module. */
module AesUtils {
  import opened Bytes

  /** A JavaScript number as `parseInt` returns it: an integer or NaN. */
  datatype Num = Int(v: int) | NaN

  /** The numbers of a byte array. */
  function Nums(b: seq<int>): (r: seq<Num>)
    ensures |r| == |b|
    ensures forall i :: 0 <= i < |b| ==> r[i] == Int(b[i])
  {
    seq(|b|, i requires 0 <= i < |b| => Int(b[i]))
  }

  predicate AllBytes(b: seq<int>) {
    forall i :: 0 <= i < |b| ==> 0 <= b[i] < 256
  }

  // ---------------------------------------------------------------------
  // Hex digits and Number.prototype.toString(16)
  // ---------------------------------------------------------------------

  const LowerHexDigits: string := "0123456789abcdef"

  function HexDigit(d: nat): char
    requires d < 16
  {
    LowerHexDigits[d]
  }

  predicate IsHexChar(c: char) {
    ('0' <= c <= '9') || ('a' <= c <= 'f') || ('A' <= c <= 'F')
  }

  function HexValue(c: char): (d: nat)
    requires IsHexChar(c)
    ensures d < 16
  {
    if '0' <= c <= '9' then (c as int - '0' as int)
    else if 'a' <= c <= 'f' then (c as int - 'a' as int) + 10
    else (c as int - 'A' as int) + 10
  }

  lemma HexValueOfDigit(d: nat)
    requires d < 16
    ensures IsHexChar(HexDigit(d)) && HexValue(HexDigit(d)) == d
  {
  }

  /** The base-16 digits of a non-negative integer, without leading zeros. */
  function HexDigits(n: nat): (r: string)
    ensures |r| >= 1
    ensures n < 16 <==> |r| == 1
    decreases n
  {
    if n < 16 then [HexDigit(n)] else HexDigits(n / 16) + [HexDigit(n % 16)]
  }

  /** `n.toString(16)` for an integer n. */
  function NumberToHex(n: int): (r: string)
    ensures |r| >= 1
  {
    if n < 0 then "-" + HexDigits(-n) else HexDigits(n)
  }

  // ---------------------------------------------------------------------
  // ByteArray_2_HexString
  // ---------------------------------------------------------------------

  /** The two characters `ByteArray_2_HexString` emits for one element:
      shorter strings are zero-filled, longer ones keep their last two. */
  function HexChunk(n: int): (r: string)
    ensures |r| == 2
  {
    var str := NumberToHex(n);
    if |str| == 0 then "00"
    else if |str| == 1 then "0" + str
    else if |str| == 2 then str
    else str[|str| - 2..|str|]
  }

  /** The string a loop accumulates by appending `chunk(x)` for each
      element x in turn. */
  function Joined(arr: seq<int>, chunk: int -> string): string
  {
    if arr == [] then "" else Joined(arr[..|arr| - 1], chunk) + chunk(arr[|arr| - 1])
  }

  lemma {:induction false} JoinedLength(arr: seq<int>, chunk: int -> string)
    requires forall x :: |chunk(x)| == 2
    ensures |Joined(arr, chunk)| == 2 * |arr|
  {
    if arr != [] {
      JoinedLength(arr[..|arr| - 1], chunk);
    }
  }

  lemma SliceInFront(t: string, c: string, j: nat)
    requires j + 2 <= |t|
    ensures (t + c)[j..j + 2] == t[j..j + 2]
  {
  }

  lemma SliceBehind(t: string, c: string)
    requires |c| == 2
    ensures (t + c)[|t|..|t| + 2] == c
  {
  }

  /** With two-character chunks, element i owns characters 2i and 2i+1. */
  lemma {:induction false} JoinedAt(arr: seq<int>, chunk: int -> string, i: nat)
    requires forall x :: |chunk(x)| == 2
    requires i < |arr|
    ensures |Joined(arr, chunk)| == 2 * |arr|
    ensures Joined(arr, chunk)[2 * i..2 * i + 2] == chunk(arr[i])
  {
    JoinedLength(arr, chunk);
    var init := arr[..|arr| - 1];
    var t, c := Joined(init, chunk), chunk(arr[|arr| - 1]);
    JoinedLength(init, chunk);
    if i < |arr| - 1 {
      JoinedAt(init, chunk, i);
      assert init[i] == arr[i];
      SliceInFront(t, c, 2 * i);
    } else {
      SliceBehind(t, c);
    }
  }

  /** The string `ByteArray_2_HexString` accumulates over the array. */
  function ByteArrayToHex(arr: seq<int>): (r: string)
  {
    Joined(arr, HexChunk)
  }

  lemma ByteArrayToHexLength(arr: seq<int>)
    ensures |ByteArrayToHex(arr)| == 2 * |arr|
  {
    JoinedLength(arr, HexChunk);
  }

  /** Element i of the array becomes characters 2i and 2i+1 of the string. */
  lemma ByteArrayToHexAt(arr: seq<int>, i: nat)
    requires i < |arr|
    ensures |ByteArrayToHex(arr)| == 2 * |arr|
    ensures ByteArrayToHex(arr)[2 * i..2 * i + 2] == HexChunk(arr[i])
  {
    JoinedAt(arr, HexChunk, i);
  }

  /** A value in 0..255 becomes exactly two lower-case hex digits, high
      nibble first. */
  lemma ByteHexChunk(n: int)
    requires 0 <= n < 256
    ensures HexChunk(n) == [HexDigit(n / 16), HexDigit(n % 16)]
  {
    if n >= 16 {
      assert HexDigits(n / 16) == [HexDigit(n / 16)];
    }
  }

  /** The nibbles of the low byte of n are n's second-to-last and last
      hex digits. */
  lemma LowByteNibbles(n: nat)
    ensures (n % 256) / 16 == (n / 16) % 16
    ensures (n % 256) % 16 == n % 16
  {
    var q, c := n / 16, n % 16;
    assert n == 16 * q + c;
    var a, b := q / 16, q % 16;
    assert q == 16 * a + b;
    assert n == 256 * a + (16 * b + c);
    assert 0 <= 16 * b + c < 256;
    assert n % 256 == 16 * b + c;
  }

  /** A value above 255 has at least three hex digits; the chunk keeps
      the last two. */
  lemma LastTwoHexDigits(n: int)
    requires n >= 256
    ensures HexChunk(n) == [HexDigit((n / 16) % 16), HexDigit(n % 16)]
  {
    var q := n / 16;
    assert q >= 16;
    var s := HexDigits(n);
    assert s == HexDigits(q) + [HexDigit(n % 16)];
    assert HexDigits(q) == HexDigits(q / 16) + [HexDigit(q % 16)];
    assert |s| >= 3;
    assert s[|s| - 2..] == [HexDigit(q % 16), HexDigit(n % 16)];
  }

  /** A non-negative value above 255 keeps only its last two hex digits,
      which are those of its low byte. */
  lemma LargeHexChunk(n: int)
    requires n >= 0
    ensures HexChunk(n) == HexChunk(n % 256)
  {
    if n >= 256 {
      LastTwoHexDigits(n);
      ByteHexChunk(n % 256);
      LowByteNibbles(n);
    } else {
      assert n % 256 == n;
    }
  }

  /** `ByteArray_2_HexString`: the `for ... in` loop over the array. */
  method ByteArrayToHexString(arr: seq<int>) returns (result: string)
    ensures result == ByteArrayToHex(arr)
    ensures |result| == 2 * |arr|
  {
    result := "";
    for i := 0 to |arr|
      invariant result == ByteArrayToHex(arr[..i])
    {
      assert arr[..i + 1][..i] == arr[..i];
      result := result + HexChunk(arr[i]);
    }
    assert arr[..|arr|] == arr;
    ByteArrayToHexLength(arr);
  }

  // ---------------------------------------------------------------------
  // parseInt(chunk, 16) and HexString_2_ByteArray
  // ---------------------------------------------------------------------

  /** The white space and line terminators `parseInt` skips (ECMAScript
      StrWhiteSpaceChar). */
  predicate IsJsSpace(c: char) {
    c == '\t' || c == '\n' || c == '\U{000B}' || c == '\U{000C}' || c == '\r' || c == ' '
    || c == '\U{00A0}' || c == '\U{1680}' || ('\U{2000}' <= c <= '\U{200A}')
    || c == '\U{2028}' || c == '\U{2029}' || c == '\U{202F}' || c == '\U{205F}'
    || c == '\U{3000}' || c == '\U{FEFF}'
  }

  function TrimStart(s: string): string {
    if |s| > 0 && IsJsSpace(s[0]) then TrimStart(s[1..]) else s
  }

  /** Reads the hex digits at the front of `s` onto `acc`; NaN when
      there are none at all. */
  function ScanHex(s: string, acc: nat, seen: bool): Num {
    if |s| > 0 && IsHexChar(s[0]) then ScanHex(s[1..], 16 * acc + HexValue(s[0]), true)
    else if seen then Int(acc)
    else NaN
  }

  /** `parseInt(s, 16)`: skip leading white space, take an optional sign
      and an optional `0x`/`0X` prefix, then as many hex digits as follow;
      NaN when there are none. */
  function ParseIntHex(s: string): Num {
    var t := TrimStart(s);
    var negative := |t| > 0 && t[0] == '-';
    var u := if |t| > 0 && (t[0] == '-' || t[0] == '+') then t[1..] else t;
    var w := if |u| >= 2 && u[0] == '0' && (u[1] == 'x' || u[1] == 'X') then u[2..] else u;
    var n := ScanHex(w, 0, false);
    if negative && n.Int? then Int(0 - n.v) else n
  }

  /** Where `s.substr(i, 2)` ends. */
  function ChunkEnd(s: string, i: nat): (e: nat)
    requires i <= |s|
    ensures i <= e <= |s|
  {
    if i + 2 <= |s| then i + 2 else |s|
  }

  /** `s.substr(i, 2)` for an index inside the string. */
  function Chunk(s: string, i: nat): string
    requires i <= |s|
  {
    s[i..ChunkEnd(s, i)]
  }

  /** The array `HexString_2_ByteArray` returns: one `parseInt` per
      two-character chunk, a final single character forming its own chunk,
      so that a string of length n gives ceil(n / 2) numbers. */
  function HexToNums(s: string): (r: seq<Num>)
  {
    seq((|s| + 1) / 2, k requires 0 <= k < (|s| + 1) / 2 => ParseIntHex(Chunk(s, 2 * k)))
  }

  /** `HexString_2_ByteArray`: the loop that steps through the string two
      characters at a time. */
  method HexStringToByteArray(hexString: string) returns (result: seq<Num>)
    ensures result == HexToNums(hexString)
    ensures |result| == (|hexString| + 1) / 2
  {
    result := [];
    var i := 0;
    while i < |hexString|
      invariant i == 2 * |result|
      invariant i <= |hexString| + 1
      invariant result == HexToNums(hexString)[..|result|]
      decreases |hexString| - i
    {
      ghost var spec := HexToNums(hexString);
      var n := ParseIntHex(Chunk(hexString, i));
      assert n == spec[|result|];
      assert spec[..|result| + 1] == spec[..|result|] + [n];
      result := result + [n];
      i := i + 2;
    }
    assert |result| == |HexToNums(hexString)|;
  }

  /** Two hex digits parse to the value they spell. */
  lemma ParseTwoHexDigits(s: string, hi: nat, lo: nat)
    requires hi < 16 && lo < 16
    requires s == [HexDigit(hi), HexDigit(lo)]
    ensures ParseIntHex(s) == Int(16 * hi + lo)
  {
    HexValueOfDigit(hi);
    HexValueOfDigit(lo);
    assert !IsJsSpace(s[0]);
    assert TrimStart(s) == s;
    assert s[1] != 'x' && s[1] != 'X';
    assert ScanHex(s[2..], 16 * hi + lo, true) == Int(16 * hi + lo);
    assert ScanHex(s[1..], hi, true) == Int(16 * hi + lo);
  }

  /** Two hex digits parse back to the byte they encode. */
  lemma ParseByteChunk(n: int)
    requires 0 <= n < 256
    ensures ParseIntHex(HexChunk(n)) == Int(n)
  {
    ByteHexChunk(n);
    ParseTwoHexDigits(HexChunk(n), n / 16, n % 16);
  }

  /** Round trip: hex-encoding a byte array and parsing it back yields the
      same values. */
  lemma HexRoundTrip(arr: seq<int>)
    requires AllBytes(arr)
    ensures HexToNums(ByteArrayToHex(arr)) == Nums(arr)
  {
    var s := ByteArrayToHex(arr);
    ByteArrayToHexLength(arr);
    forall k | 0 <= k < |arr|
      ensures HexToNums(s)[k] == Int(arr[k])
    {
      ByteArrayToHexAt(arr, k);
      assert Chunk(s, 2 * k) == HexChunk(arr[k]);
      ParseByteChunk(arr[k]);
    }
  }

  // ---------------------------------------------------------------------
  // Null padding of AESencryptCBC_txt and its removal in AESdecryptCBC_txt
  // ---------------------------------------------------------------------

  /** The number of zero bytes needed to reach a multiple of 16. */
  function ZeroPadCount(n: nat): nat {
    (16 - n % 16) % 16
  }

  function ZeroPadded(text: seq<byte>): seq<byte> {
    text + Zeros(ZeroPadCount(|text|))
  }

  /** Zero padding adds fewer than 16 zero bytes, reaches a multiple of
      16 and leaves an aligned input as it is. */
  lemma ZeroPaddedProperties(text: seq<byte>)
    ensures var p := ZeroPadded(text);
      && p[..|text|] == text
      && |p| % 16 == 0
      && |text| <= |p| < |text| + 16
      && (forall i :: |text| <= i < |p| ==> p[i] == 0)
      && (|text| % 16 == 0 ==> p == text)
  {
    var p := ZeroPadded(text);
    assert p[..|text|] == text;
  }

  /** Among the first ZeroPadCount(n) + 1 lengths past n, only the last is
      a multiple of 16. */
  lemma PadCountAligns(n: nat, k: nat)
    requires k <= ZeroPadCount(n)
    ensures (n + k) % 16 == 0 <==> k == ZeroPadCount(n)
  {
    var q, t := n / 16, n % 16;
    assert n == 16 * q + t;
    if t == 0 {
      assert ZeroPadCount(n) == 0;
    } else {
      assert ZeroPadCount(n) == 16 - t;
      assert n + k == 16 * q + (t + k);
      assert 0 < t + k <= 16;
      if t + k < 16 {
        assert (n + k) % 16 == t + k;
      } else {
        assert n + k == 16 * (q + 1);
      }
    }
  }

  /** The `while (text.length % 16 !== 0) text.push(0)` loop. */
  method ZeroPad(text: seq<byte>) returns (padded: seq<byte>)
    ensures padded == ZeroPadded(text)
    ensures |padded| % 16 == 0 && |padded| < |text| + 16
  {
    padded := text;
    while |padded| % 16 != 0
      invariant |text| <= |padded| <= |text| + ZeroPadCount(|text|)
      invariant padded == text + Zeros(|padded| - |text|)
      decreases |text| + ZeroPadCount(|text|) - |padded|
    {
      PadCountAligns(|text|, |padded| - |text|);
      padded := padded + [0];
    }
    PadCountAligns(|text|, |padded| - |text|);
  }

  /** What the trailing-zero loop leaves of a byte array. */
  function Stripped(b: seq<byte>): (r: seq<byte>)
    ensures |r| <= |b| && r == b[..|r|]
  {
    if |b| > 0 && b[|b| - 1] == 0 then Stripped(b[..|b| - 1]) else b
  }

  /** Stripping removes every trailing zero byte and nothing else: what is
      left does not end in zero, and everything removed was zero. */
  lemma {:induction false} StrippedProperties(b: seq<byte>)
    ensures var r := Stripped(b);
      && |r| <= |b| && r == b[..|r|]
      && (r == [] || r[|r| - 1] != 0)
      && (forall i :: |r| <= i < |b| ==> b[i] == 0)
    decreases |b|
  {
    if |b| > 0 && b[|b| - 1] == 0 {
      StrippedProperties(b[..|b| - 1]);
    }
  }

  /** The `while (bytes[bytes.length - 1] == 0) bytes.pop()` loop; on an
      empty array the index reads `undefined` and the loop stops. */
  method StripZeros(decrypted: seq<byte>) returns (r: seq<byte>)
    ensures r == Stripped(decrypted)
    ensures |r| <= |decrypted| && r == decrypted[..|r|]
    ensures r == [] || r[|r| - 1] != 0
    ensures forall i :: |r| <= i < |decrypted| ==> decrypted[i] == 0
  {
    r := decrypted;
    while |r| > 0 && r[|r| - 1] == 0
      invariant |r| <= |decrypted| && r == decrypted[..|r|]
      invariant Stripped(r) == Stripped(decrypted)
      decreases |r|
    {
      r := r[..|r| - 1];
    }
    StrippedProperties(decrypted);
  }

  lemma {:induction false} StrippedAppendZeros(t: seq<byte>, k: nat)
    ensures Stripped(t + Zeros(k)) == Stripped(t)
    decreases k
  {
    if k > 0 {
      var s := t + Zeros(k);
      assert s[..|s| - 1] == t + Zeros(k - 1);
      StrippedAppendZeros(t, k - 1);
    } else {
      assert t + Zeros(0) == t;
    }
  }

  /** Stripping undoes zero padding exactly when the text does not itself
      end in a zero byte. */
  lemma StripUndoesZeroPad(t: seq<byte>)
    ensures Stripped(ZeroPadded(t)) == t <==> (t == [] || t[|t| - 1] != 0)
  {
    StrippedAppendZeros(t, ZeroPadCount(|t|));
    StrippedProperties(t);
    if |t| > 0 && t[|t| - 1] == 0 {
      StrippedProperties(t[..|t| - 1]);
      assert |Stripped(t)| < |t|;
    }
  }

  // ---------------------------------------------------------------------
  // The CTR counter block
  // ---------------------------------------------------------------------

  /** `[0, 0, 0, 0, 0, 0, 0, 0].concat(nonce)`: the initial counter. */
  function ShiftedNonce(nonce: seq<Num>): seq<Num> {
    Nums([0, 0, 0, 0, 0, 0, 0, 0]) + nonce
  }

  lemma ShiftedNonceLayout(nonce: seq<Num>)
    ensures |ShiftedNonce(nonce)| == 8 + |nonce|
    ensures forall i :: 0 <= i < 8 ==> ShiftedNonce(nonce)[i] == Int(0)
    ensures ShiftedNonce(nonce)[8..] == nonce
  {
  }

  /** The counter block AESencryptCTR builds from a byte nonce. */
  function EncryptCounter(arrNonce: seq<int>): seq<Num> {
    ShiftedNonce(Nums(arrNonce))
  }

  /** The counter block AESdecryptCTR builds from a hex nonce. */
  function DecryptCounter(hexNonce: string): seq<Num> {
    ShiftedNonce(HexToNums(hexNonce))
  }

  /** Decryption rebuilds the encryption's counter block when it is given
      the hex of the byte nonce. */
  lemma CounterBlocksAgree(arrNonce: seq<int>)
    requires AllBytes(arrNonce)
    ensures DecryptCounter(ByteArrayToHex(arrNonce)) == EncryptCounter(arrNonce)
  {
    HexRoundTrip(arrNonce);
  }
}
