/**
 * Bytes written as hexadecimal text. Rendering is the lowercase two-digit
 * form `String.format("%02x", b)` gives a Java byte (read as unsigned);
 * parsing accepts either case, as the BSON ObjectId parser does.
 */
module Hex {
  import opened Options
  import opened Text

  /** A Java `byte`, read as the unsigned value 0..255 that `%02x` prints. */
  type byte = b: int | 0 <= b < 256

  /** The lowercase hexadecimal digit for a value below 16. */
  function HexDigit(n: int): (c: char)
    requires 0 <= n < 16
    ensures '0' <= c <= '9' || 'a' <= c <= 'f'
  {
    if n < 10 then ('0' as int + n) as char else ('a' as int + n - 10) as char
  }

  /** The value of a hexadecimal digit of either case, None for any other character. */
  function DigitValue(c: char): (v: Option<int>)
    ensures v.Some? ==> 0 <= v.value < 16
  {
    if '0' <= c <= '9' then Some(c as int - '0' as int)
    else if 'a' <= c <= 'f' then Some(c as int - 'a' as int + 10)
    else if 'A' <= c <= 'F' then Some(c as int - 'A' as int + 10)
    else None
  }

  predicate IsHexChar(c: char) {
    '0' <= c <= '9' || 'a' <= c <= 'f' || 'A' <= c <= 'F'
  }

  lemma DigitValueOfHexDigit(n: int)
    requires 0 <= n < 16
    ensures DigitValue(HexDigit(n)) == Some(n)
  {
  }

  /** The two lowercase digits of one byte, high nibble first. */
  function ByteHex(b: byte): (s: string)
    ensures |s| == 2
  {
    [HexDigit(b / 16), HexDigit(b % 16)]
  }

  /** Two hexadecimal digits, high first, as a byte. */
  function ParseByte(hi: char, lo: char): (r: Option<byte>)
    ensures r.Some? <==> IsHexChar(hi) && IsHexChar(lo)
  {
    match (DigitValue(hi), DigitValue(lo))
    case (Some(h), Some(l)) => Some(h * 16 + l)
    case _ => None
  }

  /** A byte sequence as lowercase hexadecimal text, two digits per byte in order. */
  function HexOfBytes(bytes: seq<byte>): (s: string)
    ensures |s| == 2 * |bytes|
  {
    if bytes == [] then "" else HexOfBytes(bytes[..|bytes| - 1]) + ByteHex(bytes[|bytes| - 1])
  }

  /** Hexadecimal text as bytes: None unless the text is an even number of hex digits. */
  function ParseHex(s: string): (r: Option<seq<byte>>)
    ensures r.Some? <==> |s| % 2 == 0 && forall i :: 0 <= i < |s| ==> IsHexChar(s[i])
    ensures r.Some? ==> 2 * |r.value| == |s|
  {
    if |s| == 0 then Some([])
    else if |s| == 1 then None
    else
      match (ParseHex(s[..|s| - 2]), ParseByte(s[|s| - 2], s[|s| - 1]))
      case (Some(prefix), Some(b)) => Some(prefix + [b])
      case _ => None
  }

  /** Byte `i` is rendered as characters `2i` and `2i + 1`. */
  lemma {:induction false} HexOfBytesAt(bytes: seq<byte>, i: int)
    requires 0 <= i < |bytes|
    ensures HexOfBytes(bytes)[2 * i..2 * i + 2] == ByteHex(bytes[i])
  {
    var n := |bytes| - 1;
    var front := bytes[..n];
    assert HexOfBytes(bytes) == HexOfBytes(front) + ByteHex(bytes[n]);
    if i < n {
      HexOfBytesAt(front, i);
    }
  }

  /** Rendered text uses only lowercase hexadecimal digits. */
  lemma {:induction false} HexOfBytesIsLowercase(bytes: seq<byte>)
    ensures forall i :: 0 <= i < |HexOfBytes(bytes)| ==>
      '0' <= HexOfBytes(bytes)[i] <= '9' || 'a' <= HexOfBytes(bytes)[i] <= 'f'
  {
    if bytes != [] {
      HexOfBytesIsLowercase(bytes[..|bytes| - 1]);
    }
  }

  lemma ParseByteOfByteHex(b: byte)
    ensures ParseByte(ByteHex(b)[0], ByteHex(b)[1]) == Some(b)
  {
    DigitValueOfHexDigit(b / 16);
    DigitValueOfHexDigit(b % 16);
  }

  /** Parsing what was rendered gives back the bytes. */
  lemma {:induction false} ParseHexOfBytes(bytes: seq<byte>)
    ensures ParseHex(HexOfBytes(bytes)) == Some(bytes)
  {
    if bytes != [] {
      var n := |bytes| - 1;
      var s := HexOfBytes(bytes);
      assert s[..|s| - 2] == HexOfBytes(bytes[..n]);
      assert s[|s| - 2..] == ByteHex(bytes[n]);
      ParseHexOfBytes(bytes[..n]);
      ParseByteOfByteHex(bytes[n]);
      assert bytes[..n] + [bytes[n]] == bytes;
    }
  }

  lemma ByteHexOfParseByte(hi: char, lo: char)
    requires ParseByte(hi, lo).Some?
    ensures ByteHex(ParseByte(hi, lo).value) == [LowerChar(hi), LowerChar(lo)]
  {
    var h := DigitValue(hi).value;
    var l := DigitValue(lo).value;
    assert (h * 16 + l) / 16 == h && (h * 16 + l) % 16 == l;
  }

  /** Rendering what was parsed gives back the text, lower-cased. */
  lemma {:induction false} HexOfParseHex(s: string)
    requires ParseHex(s).Some?
    ensures HexOfBytes(ParseHex(s).value) == Lower(s)
  {
    if |s| > 0 {
      var front := s[..|s| - 2];
      HexOfParseHex(front);
      ByteHexOfParseByte(s[|s| - 2], s[|s| - 1]);
      var bytes := ParseHex(s).value;
      assert bytes[..|bytes| - 1] == ParseHex(front).value;
      assert Lower(s) == Lower(front) + [LowerChar(s[|s| - 2]), LowerChar(s[|s| - 1])];
    }
  }
}
