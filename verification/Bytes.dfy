/** Byte-level encodings: little-endian integers, UTF-8, lower-case hexadecimal. */
module Bytes {
  import opened Wrappers
  import opened Canonical

  type ByteString = seq<Byte>

  // ---- little-endian integers

  /** 256 to the power `width`. */
  function Radix(width: nat): (r: nat)
    ensures r > 0
  {
    if width == 0 then 1 else 256 * Radix(width - 1)
  }

  function LittleEndian(width: nat, n: nat): (bytes: ByteString)
    ensures |bytes| == width
  {
    if width == 0 then [] else [n % 256] + LittleEndian(width - 1, n / 256)
  }

  function FromLittleEndian(bytes: ByteString): (n: nat)
  {
    if bytes == [] then 0 else bytes[0] + 256 * FromLittleEndian(bytes[1..])
  }

  lemma {:induction false} LittleEndianRoundTrip(width: nat, n: nat)
    requires n < Radix(width)
    ensures FromLittleEndian(LittleEndian(width, n)) == n
  {
    if width > 0 {
      LittleEndianRoundTrip(width - 1, n / 256);
      assert LittleEndian(width, n)[1..] == LittleEndian(width - 1, n / 256);
    }
  }

  lemma LowByte(b: Byte, v: nat)
    ensures (b + 256 * v) % 256 == b && (b + 256 * v) / 256 == v
  {
  }

  lemma {:induction false} BytesRoundTrip(bytes: ByteString)
    ensures FromLittleEndian(bytes) < Radix(|bytes|)
    ensures LittleEndian(|bytes|, FromLittleEndian(bytes)) == bytes
  {
    if bytes != [] {
      BytesRoundTrip(bytes[1..]);
      var v := FromLittleEndian(bytes[1..]);
      LowByte(bytes[0], v);
      assert FromLittleEndian(bytes) == bytes[0] + 256 * v;
      assert LittleEndian(|bytes|, bytes[0] + 256 * v) == [bytes[0]] + LittleEndian(|bytes| - 1, v);
      assert bytes == [bytes[0]] + bytes[1..];
    }
  }

  lemma RadixValues()
    ensures Radix(2) == 0x1_0000 && Radix(4) == 0x1_0000_0000 && Radix(8) == U64_LIMIT
  {
    assert Radix(1) == 256 && Radix(2) == 0x1_0000 && Radix(3) == 0x100_0000 && Radix(4) == 0x1_0000_0000;
    assert Radix(5) == 0x100_0000_0000 && Radix(6) == 0x1_0000_0000_0000 && Radix(7) == 0x100_0000_0000_0000;
  }

  // ---- UTF-8

  function Utf8Char(c: char): (bytes: ByteString)
    ensures 1 <= |bytes| <= 4
  {
    var n := c as int;
    if n < 0x80 then [n]
    else if n < 0x800 then [0xC0 + n / 0x40, 0x80 + n % 0x40]
    else if n < 0x1_0000 then [0xE0 + n / 0x1000, 0x80 + n / 0x40 % 0x40, 0x80 + n % 0x40]
    else [0xF0 + n / 0x4_0000, 0x80 + n / 0x1000 % 0x40, 0x80 + n / 0x40 % 0x40, 0x80 + n % 0x40]
  }

  function Utf8(s: string): ByteString {
    if s == [] then [] else Utf8Char(s[0]) + Utf8(s[1..])
  }

  /** The number a lead byte and the bytes behind it spell, six bits a byte. */
  function FromUtf8Bytes(b: ByteString): int
    requires 1 <= |b| <= 4
  {
    var lead: int := b[0];
    if |b| == 1 then lead else
    var second: int := b[1];
    if |b| == 2 then 0x40 * (lead - 0xC0) + (second - 0x80) else
    var third: int := b[2];
    if |b| == 3 then 0x1000 * (lead - 0xE0) + 0x40 * (second - 0x80) + (third - 0x80) else
    var fourth: int := b[3];
    0x4_0000 * (lead - 0xF0) + 0x1000 * (second - 0x80) + 0x40 * (third - 0x80) + (fourth - 0x80)
  }

  /**
   One to four bytes as in section 3 of RFC 3629: the lead byte tells how many follow, each byte that follows carries
   six bits, and no shorter sequence would do.
   */
  lemma Utf8CharReads(c: char)
    ensures var b, n := Utf8Char(c), c as int;
      && |b| <= 4 && n == FromUtf8Bytes(b)
      && (forall k :: 0 < k < |b| ==> 0x80 <= b[k] < 0xC0)
      && match |b|
         case 1 => b[0] < 0x80
         case 2 => 0xC0 <= b[0] < 0xE0 && n >= 0x80
         case 3 => 0xE0 <= b[0] < 0xF0 && n >= 0x800
         case _ => 0xF0 <= b[0] < 0xF8 && n >= 0x1_0000
  {
    var n := c as int;
    assert n / 0x40 / 0x40 == n / 0x1000 && n / 0x1000 / 0x40 == n / 0x4_0000;
  }

  /** The lead byte tells the length of a sequence, so no encoding is a prefix of another. */
  lemma Utf8CharIsPrefixFree(a: char, b: char, restA: ByteString, restB: ByteString)
    requires Utf8Char(a) + restA == Utf8Char(b) + restB
    ensures a == b && restA == restB
  {
    var x, y := Utf8Char(a), Utf8Char(b);
    assert (x + restA)[0] == x[0] && (y + restB)[0] == y[0];
    assert |x| == |y|;
    assert (x + restA)[..|x|] == x && (y + restB)[..|y|] == y;
    assert (x + restA)[|x|..] == restA && (y + restB)[|y|..] == restB;
    SameScalar(a, b);
  }

  lemma SameScalar(a: char, b: char)
    requires Utf8Char(a) == Utf8Char(b)
    ensures a == b
  {
    var m, n := a as int, b as int;
    var x, y := Utf8Char(a), Utf8Char(b);
    if |x| == 2 {
      assert x[0] == y[0] && x[1] == y[1];
    } else if |x| == 3 {
      assert x[0] == y[0] && x[1] == y[1] && x[2] == y[2];
      assert m / 0x40 / 0x40 == m / 0x1000 && n / 0x40 / 0x40 == n / 0x1000;
    } else if |x| == 4 {
      assert x[0] == y[0] && x[1] == y[1] && x[2] == y[2] && x[3] == y[3];
      assert m / 0x40 / 0x40 == m / 0x1000 && n / 0x40 / 0x40 == n / 0x1000;
      assert m / 0x1000 / 0x40 == m / 0x4_0000 && n / 0x1000 / 0x40 == n / 0x4_0000;
    } else {
      assert x[0] == y[0];
    }
  }

  lemma {:induction false} Utf8IsInjective(a: string, b: string)
    requires Utf8(a) == Utf8(b)
    ensures a == b
  {
    if a == [] || b == [] {
      assert |Utf8(a)| == |Utf8(b)|;
    } else {
      Utf8CharIsPrefixFree(a[0], b[0], Utf8(a[1..]), Utf8(b[1..]));
      Utf8IsInjective(a[1..], b[1..]);
      assert a == [a[0]] + a[1..] && b == [b[0]] + b[1..];
    }
  }

  /** UTF-8 validation: the text these bytes spell, if they spell one. */
  ghost function FromUtf8(bytes: ByteString): Option<string> {
    if exists s :: Utf8(s) == bytes then
      var s :| Utf8(s) == bytes;
      Some(s)
    else None
  }

  lemma FromUtf8IsInverse(bytes: ByteString, s: string)
    ensures FromUtf8(bytes) == Some(s) <==> Utf8(s) == bytes
  {
    if Utf8(s) == bytes {
      Utf8IsInjective(s, FromUtf8(bytes).value);
    }
  }

  // ---- hexadecimal

  function Hex(bytes: ByteString): (s: string)
    ensures |s| == 2 * |bytes|
  {
    if bytes == [] then "" else [HexDigit(bytes[0] / 16), HexDigit(bytes[0] % 16)] + Hex(bytes[1..])
  }

  predicate IsLowerHexDigit(c: char)
    ensures IsLowerHexDigit(c) ==> IsHexDigit(c)
  {
    '0' <= c <= '9' || 'a' <= c <= 'f'
  }

  predicate AllLowerHex(s: string) {
    forall i :: 0 <= i < |s| ==> IsLowerHexDigit(s[i])
  }

  lemma HexDigitOfValue(c: char)
    requires IsLowerHexDigit(c)
    ensures HexDigit(HexValue(c)) == c
  {
  }

  function FromHex(s: string): (bytes: ByteString)
    requires |s| % 2 == 0
    requires AllLowerHex(s)
    ensures |bytes| == |s| / 2
  {
    if s == "" then [] else
      assert IsLowerHexDigit(s[0]) && IsLowerHexDigit(s[1]);
      [16 * HexValue(s[0]) + HexValue(s[1])] + FromHex(s[2..])
  }

  lemma {:induction false} HexRoundTrip(bytes: ByteString)
    ensures AllLowerHex(Hex(bytes))
    ensures FromHex(Hex(bytes)) == bytes
  {
    if bytes != [] {
      HexRoundTrip(bytes[1..]);
      HexOfByte(bytes[0]);
      var hi, lo := HexDigit(bytes[0] / 16), HexDigit(bytes[0] % 16);
      var s := Hex(bytes);
      assert s == [hi, lo] + Hex(bytes[1..]);
      hide Hex;
      hide HexDigit;
      hide HexValue;
      hide IsLowerHexDigit;
      hide AllLowerHex;
      hide FromHex;
      LowerHexPair(hi, lo, Hex(bytes[1..]));
      assert s[0] == hi && s[1] == lo && s[2..] == Hex(bytes[1..]);
      FromHexUnfolds(s);
    }
  }

  lemma HexOfByte(b: Byte)
    ensures IsLowerHexDigit(HexDigit(b / 16)) && IsLowerHexDigit(HexDigit(b % 16))
    ensures 16 * HexValue(HexDigit(b / 16)) + HexValue(HexDigit(b % 16)) == b
  {
  }

  lemma LowerHexPair(hi: char, lo: char, rest: string)
    requires IsLowerHexDigit(hi) && IsLowerHexDigit(lo) && AllLowerHex(rest)
    ensures AllLowerHex([hi, lo] + rest)
  {
    hide IsLowerHexDigit;
    var s := [hi, lo] + rest;
    assert s[0] == hi && s[1] == lo && forall i :: 2 <= i < |s| ==> s[i] == rest[i - 2];
  }

  lemma FromHexUnfolds(s: string)
    requires |s| >= 2 && |s| % 2 == 0 && AllLowerHex(s)
    ensures IsLowerHexDigit(s[0]) && IsLowerHexDigit(s[1]) && AllLowerHex(s[2..])
    ensures FromHex(s) == [16 * HexValue(s[0]) + HexValue(s[1])] + FromHex(s[2..])
  {
    hide IsLowerHexDigit;
    hide HexValue;
    var rest := s[2..];
    assert forall i :: 0 <= i < |rest| ==> rest[i] == s[i + 2];
  }

  lemma {:induction false} FromHexRoundTrip(s: string)
    requires |s| % 2 == 0 && AllLowerHex(s)
    ensures Hex(FromHex(s)) == s
  {
    hide IsLowerHexDigit;
    hide HexValue;
    hide HexDigit;
    hide AllLowerHex;
    if s != "" {
      hide Hex;
      hide FromHex;
      FromHexUnfolds(s);
      FromHexRoundTrip(s[2..]);
      HexOfDigits(s[0], s[1], FromHex(s[2..]));
      assert s == [s[0], s[1]] + s[2..];
    }
  }

  lemma HexOfDigits(hi: char, lo: char, rest: ByteString)
    requires IsLowerHexDigit(hi) && IsLowerHexDigit(lo)
    ensures Hex([16 * HexValue(hi) + HexValue(lo)] + rest) == [hi, lo] + Hex(rest)
  {
    hide HexDigit;
    hide HexValue;
    HexDigitOfValue(hi);
    HexDigitOfValue(lo);
    var h, l := HexValue(hi), HexValue(lo);
    assert (16 * h + l) / 16 == h && (16 * h + l) % 16 == l;
    assert ([16 * h + l] + rest)[1..] == rest;
  }
}
