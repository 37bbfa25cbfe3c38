/**
 * The text form of the main window's in-memory password hash: each digest byte
 * formatted with `ToString("x2")`, two lower-case hexadecimal digits, appended in order.
 */
module HexFormat {

  type byte = b: int | 0 <= b < 256

  /** A SHA-256 digest is 32 bytes. */
  const DigestLength: nat := 32

  type Digest = d: seq<byte> | |d| == DigestLength witness seq(32, i => 0)

  const HexDigits: string := "0123456789abcdef"

  /** A lower-case hexadecimal digit. */
  predicate IsHexDigit(c: char) {
    '0' <= c <= '9' || 'a' <= c <= 'f'
  }

  /** The hexadecimal digit for a value below sixteen. */
  function HexDigit(n: int): (c: char)
    requires 0 <= n < 16
    ensures IsHexDigit(c)
  {
    if n < 10 then ('0' as int + n) as char else ('a' as int + n - 10) as char
  }

  /** The digit is the `n`-th of `0123456789abcdef`. */
  lemma HexDigitInTable(n: int)
    requires 0 <= n < 16
    ensures HexDigit(n) == HexDigits[n]
  {
  }

  /** `b.ToString("x2")`: the high digit, then the low digit. */
  function ByteHex(b: byte): (s: string)
    ensures |s| == 2 && IsHexDigit(s[0]) && IsHexDigit(s[1])
  {
    [HexDigit(b / 16), HexDigit(b % 16)]
  }

  /** The concatenation of `ByteHex` over the bytes. */
  function Hex(bytes: seq<byte>): (s: string)
    ensures |s| == 2 * |bytes|
    ensures forall i :: 0 <= i < |s| ==> IsHexDigit(s[i])
  {
    if bytes == [] then [] else Hex(bytes[..|bytes| - 1]) + ByteHex(bytes[|bytes| - 1])
  }

  /** The loop of `ComputeSha256Hash` that appends each byte's two digits to a string builder. */
  method ToHexString(bytes: seq<byte>) returns (s: string)
    ensures s == Hex(bytes)
  {
    s := "";
    for i := 0 to |bytes|
      invariant s == Hex(bytes[..i])
    {
      s := s + ByteHex(bytes[i]);
      assert bytes[..i + 1][..i] == bytes[..i];
    }
    assert bytes[..|bytes|] == bytes;
  }

  // ---------------------------------------------------------------------------
  // Decoding, the inverse of the formatting

  /** The value of a lower-case hexadecimal digit. */
  function DigitValue(c: char): (n: int)
    ensures 0 <= n < 16
  {
    if '0' <= c <= '9' then c as int - '0' as int
    else if 'a' <= c <= 'f' then c as int - 'a' as int + 10
    else 0
  }

  /** Reads the text back two digits at a time. */
  function ParseHex(s: string): (bytes: seq<byte>)
  {
    if |s| < 2 then []
    else ParseHex(s[..|s| - 2]) + [16 * DigitValue(s[|s| - 2]) + DigitValue(s[|s| - 1])]
  }

  /** One byte per two characters; an odd last character is ignored. */
  lemma {:induction false} ParseHexLength(s: string)
    ensures |ParseHex(s)| == |s| / 2
    decreases |s|
  {
    if |s| >= 2 {
      ParseHexLength(s[..|s| - 2]);
    }
  }

  /** The two digits of a byte read back give the byte. */
  lemma ByteRoundTrip(b: byte)
    ensures 16 * DigitValue(ByteHex(b)[0]) + DigitValue(ByteHex(b)[1]) == b
  {
    assert DigitValue(HexDigit(b / 16)) == b / 16;
    assert DigitValue(HexDigit(b % 16)) == b % 16;
  }

  /** Parsing the formatted text gives back the bytes. */
  lemma {:induction false} HexRoundTrip(bytes: seq<byte>)
    ensures ParseHex(Hex(bytes)) == bytes
  {
    if bytes != [] {
      var init, last := bytes[..|bytes| - 1], bytes[|bytes| - 1];
      assert bytes == init + [last];
      ParseLastByte(init, last);
      HexRoundTrip(init);
    }
  }

  /** Parsing the text of one more byte gives one more byte. */
  lemma ParseLastByte(init: seq<byte>, last: byte)
    ensures ParseHex(Hex(init + [last])) == ParseHex(Hex(init)) + [last]
  {
    var bytes := init + [last];
    assert bytes[..|bytes| - 1] == init;
    var s, t, p := Hex(bytes), Hex(init), ByteHex(last);
    assert s == t + p;
    assert s[..|s| - 2] == t;
    assert s[|s| - 2] == p[0] && s[|s| - 1] == p[1];
    ByteRoundTrip(last);
  }

  /** Distinct digests produce distinct texts, so comparing the texts compares the digests. */
  lemma HexInjective(a: seq<byte>, b: seq<byte>)
    requires Hex(a) == Hex(b)
    ensures a == b
  {
    HexRoundTrip(a);
    HexRoundTrip(b);
  }
}
