/**
 Lowercase hexadecimal formatting of a digest, as Go's `fmt.Sprintf("%x", bytes)` writes it:
 two digits per byte, high nibble first, letters `a`-`f`.
 */
module HexFormat {

  type byte = b: int | 0 <= b < 256

  /** An MD5 digest: sixteen bytes. The digest algorithm itself is not modelled. */
  type Digest = s: seq<byte> | |s| == 16 witness seq(16, i => 0)

  /** One of `0`-`9`, `a`-`f`. */
  predicate IsHexChar(c: char) {
    '0' <= c <= '9' || 'a' <= c <= 'f'
  }

  /** True when every character of `s` is a lowercase hex digit. */
  predicate IsLowerHex(s: string) {
    forall i :: 0 <= i < |s| ==> IsHexChar(s[i])
  }

  /** The digit for one nibble. */
  function HexDigit(n: int): (c: char)
    requires 0 <= n < 16
    ensures IsHexChar(c)
  {
    if n < 10 then ('0' as int + n) as char else ('a' as int + n - 10) as char
  }

  /** The nibble a digit stands for. */
  function DigitValue(c: char): (n: int)
    requires IsHexChar(c)
    ensures 0 <= n < 16 && HexDigit(n) == c
  {
    if '0' <= c <= '9' then c as int - '0' as int else c as int - 'a' as int + 10
  }

  /** `%x` of a byte slice. */
  function Hex(bytes: seq<byte>): (r: string)
    ensures |r| == 2 * |bytes|
    ensures IsLowerHex(r)
  {
    if |bytes| == 0 then ""
    else [HexDigit(bytes[0] / 16), HexDigit(bytes[0] % 16)] + Hex(bytes[1..])
  }

  /** Reads an even-length lowercase hex string back into bytes. */
  function Unhex(s: string): (r: seq<byte>)
    requires |s| % 2 == 0 && IsLowerHex(s)
    ensures 2 * |r| == |s|
  {
    if |s| == 0 then []
    else [DigitValue(s[0]) * 16 + DigitValue(s[1])] + Unhex(s[2..])
  }

  /** Hex formatting loses nothing: decoding it gives back the digest bytes. */
  lemma {:induction false} UnhexHex(bytes: seq<byte>)
    ensures Unhex(Hex(bytes)) == bytes
  {
    if |bytes| > 0 {
      var s := Hex(bytes);
      var b := bytes[0];
      assert s[2..] == Hex(bytes[1..]);
      assert DigitValue(s[0]) * 16 + DigitValue(s[1]) == b;
      UnhexHex(bytes[1..]);
    }
  }

  /** Distinct digests format to distinct strings. */
  lemma HexInjective(a: seq<byte>, b: seq<byte>)
    requires Hex(a) == Hex(b)
    ensures a == b
  {
    UnhexHex(a);
    UnhexHex(b);
  }

  /** An MD5 digest prints as 32 lowercase hex characters. */
  lemma DigestHexShape(d: Digest)
    ensures |Hex(d)| == 32 && IsLowerHex(Hex(d))
  {
  }
}
