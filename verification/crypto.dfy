/**
 * Hex encoding of a SHA-1 digest and the 5/35 split of the hash used by
 * the k-anonymity range query (app/utils/crypto.ts). The digest itself
 * is an input: SHA-1 (FIPS 180-4) is not part of this model.
 */
module Crypto {
  import opened Text

  type Byte = b: int | 0 <= b < 256

  /** The digit `Number.prototype.toString(16)` writes for `d`: 0-9, then a-f. */
  function LowerHexDigit(d: int): (c: char)
    requires 0 <= d < 16
    ensures IsLowerHex(c)
  {
    if d < 10 then (d + '0' as int) as char else (d - 10 + 'a' as int) as char
  }

  /** The same digit after `toUpperCase`: 0-9, then A-F. */
  function UpperHexDigit(d: int): (c: char)
    requires 0 <= d < 16
    ensures IsUpperHex(c)
  {
    if d < 10 then (d + '0' as int) as char else (d - 10 + 'A' as int) as char
  }

  predicate IsUpperHex(c: char) {
    ('0' <= c <= '9') || ('A' <= c <= 'F')
  }

  predicate IsLowerHex(c: char) {
    ('0' <= c <= '9') || ('a' <= c <= 'f')
  }

  /** `b.toString(16)`: one digit below 16, two from 16 on, lower case. */
  function ToRadix16(b: Byte): string {
    if b < 16 then [LowerHexDigit(b)] else [LowerHexDigit(b / 16), LowerHexDigit(b % 16)]
  }

  /** `b.toString(16).padStart(2, '0')`: always the high nibble's digit then the low nibble's. */
  function ByteToHex(b: Byte): (h: string)
    ensures h == [LowerHexDigit(b / 16), LowerHexDigit(b % 16)]
  {
    PadStart(ToRadix16(b), 2, '0')
  }

  predicate AllLowerHex(s: string) {
    forall i :: 0 <= i < |s| ==> IsLowerHex(s[i])
  }

  lemma LowerHexConcat(a: string, b: string)
    requires AllLowerHex(a) && AllLowerHex(b)
    ensures AllLowerHex(a + b)
  {
    forall i | 0 <= i < |a + b|
      ensures IsLowerHex((a + b)[i])
    {
      if i >= |a| {
        assert (a + b)[i] == b[i - |a|];
      }
    }
  }

  /** Both nibbles of a byte are hex digit values. */
  lemma NibbleBounds(b: Byte)
    ensures 0 <= b / 16 < 16 && 0 <= b % 16 < 16
  {
  }

  lemma ByteToHexDigits(b: Byte)
    ensures AllLowerHex(ByteToHex(b))
  {
    NibbleBounds(b);
    DigitPairLower(b / 16, b % 16);
  }

  lemma DigitPairLower(hi: int, lo: int)
    requires 0 <= hi < 16 && 0 <= lo < 16
    ensures AllLowerHex([LowerHexDigit(hi), LowerHexDigit(lo)])
  {
    var pair := [LowerHexDigit(hi), LowerHexDigit(lo)];
    assert IsLowerHex(pair[0]) && IsLowerHex(pair[1]);
  }

  /** `hashArray.map(ByteToHex).join('')`. */
  function HexLower(bytes: seq<Byte>): (h: string)
    ensures |h| == 2 * |bytes|
  {
    if |bytes| == 0 then "" else ByteToHex(bytes[0]) + HexLower(bytes[1..])
  }

  /** Every character of the joined digest is a lower-case hex digit. */
  lemma {:induction false} HexLowerDigits(bytes: seq<Byte>)
    ensures AllLowerHex(HexLower(bytes))
  {
    if |bytes| > 0 {
      var pair, rest := ByteToHex(bytes[0]), HexLower(bytes[1..]);
      ByteToHexDigits(bytes[0]);
      HexLowerDigits(bytes[1..]);
      LowerHexConcat(pair, rest);
      assert HexLower(bytes) == pair + rest;
    }
  }

  /** The two upper-case hex digits of one byte, high nibble first. */
  function HexPair(b: Byte): string {
    [UpperHexDigit(b / 16), UpperHexDigit(b % 16)]
  }

  /** The bytes written as consecutive upper-case hex pairs. */
  function HexPairs(bytes: seq<Byte>): (h: string)
    ensures |h| == 2 * |bytes|
    ensures forall i :: 0 <= i < |h| ==> IsUpperHex(h[i])
  {
    if |bytes| == 0 then "" else HexPair(bytes[0]) + HexPairs(bytes[1..])
  }

  /**
   * The digest rendered as `sha1` returns it: the padded lower-case digits
   * upper-cased, which is exactly two upper-case hex digits per byte.
   */
  function DigestHex(bytes: seq<Byte>): (h: string)
    ensures h == HexPairs(bytes)
    ensures |h| == 2 * |bytes|
    ensures forall i :: 0 <= i < |h| ==> IsUpperHex(h[i])
  {
    UpperOfHexLower(bytes);
    Upper(HexLower(bytes))
  }

  lemma UpperConcat(a: string, b: string)
    ensures Upper(a + b) == Upper(a) + Upper(b)
  {
  }

  lemma {:induction false} UpperOfHexLower(bytes: seq<Byte>)
    ensures Upper(HexLower(bytes)) == HexPairs(bytes)
  {
    if |bytes| > 0 {
      var b := bytes[0];
      UpperConcat(ByteToHex(b), HexLower(bytes[1..]));
      UpperOfByteHex(b);
      UpperOfHexLower(bytes[1..]);
    }
  }

  lemma UpperOfByteHex(b: Byte)
    ensures Upper(ByteToHex(b)) == HexPair(b)
  {
    var hi, lo := b / 16, b % 16;
    var h := ByteToHex(b);
    assert h == [LowerHexDigit(hi), LowerHexDigit(lo)];
    UpperOfLowerDigit(hi);
    UpperOfLowerDigit(lo);
    var u := Upper(h);
    assert |u| == 2 && u[0] == UpperChar(h[0]) && u[1] == UpperChar(h[1]);
    assert u == [UpperHexDigit(hi), UpperHexDigit(lo)];
  }

  /** Upper-casing a lower-case hex digit gives the upper-case digit of the same value. */
  lemma UpperOfLowerDigit(d: int)
    requires 0 <= d < 16
    ensures UpperChar(LowerHexDigit(d)) == UpperHexDigit(d)
  {
    if d >= 10 {
      assert 'a' <= LowerHexDigit(d) <= 'z';
    }
  }

  /** The value of one upper-case hex digit. */
  function HexValue(c: char): (d: nat)
    requires IsUpperHex(c)
    ensures d < 16 && UpperHexDigit(d) == c
  {
    if '0' <= c <= '9' then c as int - '0' as int else c as int - 'A' as int + 10
  }

  /** Reads upper-case hex back into bytes, two digits per byte. */
  function DecodeHex(h: string): seq<Byte>
    requires |h| % 2 == 0
    requires forall i :: 0 <= i < |h| ==> IsUpperHex(h[i])
  {
    if |h| == 0 then [] else [HexValue(h[0]) * 16 + HexValue(h[1])] + DecodeHex(h[2..])
  }

  lemma HexDigitsInjective(a: int, b: int)
    requires 0 <= a < 16 && 0 <= b < 16 && UpperHexDigit(a) == UpperHexDigit(b)
    ensures a == b
  {
  }

  /** Each byte is recovered from its two digits: decoding the rendered digest gives the digest back. */
  lemma {:induction false} DigestHexRoundTrip(bytes: seq<Byte>)
    ensures DecodeHex(DigestHex(bytes)) == bytes
  {
    HexPairsRoundTrip(bytes);
  }

  lemma {:induction false} HexPairsRoundTrip(bytes: seq<Byte>)
    ensures DecodeHex(HexPairs(bytes)) == bytes
  {
    if |bytes| > 0 {
      var b := bytes[0];
      var h := HexPairs(bytes);
      assert h[2..] == HexPairs(bytes[1..]);
      HexDigitsInjective(HexValue(h[0]), b / 16);
      HexDigitsInjective(HexValue(h[1]), b % 16);
      HexPairsRoundTrip(bytes[1..]);
    }
  }

  datatype HashParts = HashParts(prefix: string, suffix: string)

  /**
   * `getPasswordHash`: the first five hex characters are sent to the range
   * API, the rest are matched locally. `slice` clamps, so a short hash is
   * all prefix.
   */
  function PasswordHash(digest: seq<Byte>): (p: HashParts)
    ensures p.prefix + p.suffix == DigestHex(digest)
    ensures |digest| >= 3 ==> |p.prefix| == 5
    ensures |digest| == 20 ==> |p.suffix| == 35
  {
    var hash := DigestHex(digest);
    var cut := if |hash| < 5 then |hash| else 5;
    assert hash[..cut] + hash[cut..] == hash;
    HashParts(hash[..cut], hash[cut..])
  }
}
