/**
 Percent-encoding as urllib's quote does it with no safe characters: the text becomes UTF-8 bytes,
 unreserved characters stand for themselves, every other byte becomes '%' and two hex digits
 (section 2.1 of RFC 3986).  A Dafny char is a Unicode scalar value, which is exactly what UTF-8
 can encode.
 */
module PercentCoding {
  import opened Bytes
  import opened Options

  // ---------------------------------------------------------------------------
  // UTF-8 (section 3 of RFC 3629)
  // ---------------------------------------------------------------------------

  function CharBytes(c: char): seq<Byte> {
    var n := c as int;
    if n < 0x80 then [n]
    else if n < 0x800 then [0xC0 + n / 64, 0x80 + n % 64]
    else if n < 0x10000 then [0xE0 + n / 4096, 0x80 + n / 64 % 64, 0x80 + n % 64]
    else [0xF0 + n / 262144, 0x80 + n / 4096 % 64, 0x80 + n / 64 % 64, 0x80 + n % 64]
  }

  function Utf8(text: string): seq<Byte> {
    if text == "" then [] else CharBytes(text[0]) + Utf8(text[1..])
  }

  /** How many bytes a character takes, from its first byte. */
  function Width(first: Byte): nat {
    if first < 0x80 then 1 else if first < 0xE0 then 2 else if first < 0xF0 then 3 else 4
  }

  function CodePoint(bytes: seq<int>): int
    requires 1 <= |bytes| <= 4
  {
    if |bytes| == 1 then bytes[0]
    else if |bytes| == 2 then (bytes[0] - 0xC0) * 64 + (bytes[1] - 0x80)
    else if |bytes| == 3 then (bytes[0] - 0xE0) * 4096 + (bytes[1] - 0x80) * 64 + (bytes[2] - 0x80)
    else (bytes[0] - 0xF0) * 262144 + (bytes[1] - 0x80) * 4096 + (bytes[2] - 0x80) * 64 + (bytes[3] - 0x80)
  }

  predicate IsScalar(n: int) {
    0 <= n < 0xD800 || 0xE000 <= n < 0x110000
  }

  function FromUtf8(bytes: seq<Byte>): Option<string> {
    if bytes == [] then Some("")
    else
      var width := Width(bytes[0]);
      if |bytes| < width || !IsScalar(CodePoint(bytes[..width])) then None
      else
        match FromUtf8(bytes[width..])
        case Some(rest) => Some([CodePoint(bytes[..width]) as char] + rest)
        case None => None
  }

  lemma CharBytesDecode(c: char)
    ensures CharBytes(c) != [] && |CharBytes(c)| == Width(CharBytes(c)[0])
    ensures CodePoint(CharBytes(c)) == c as int
  {
    var n := c as int;
    if n < 0x80 {
    } else if n < 0x800 {
    } else if n < 0x10000 {
      assert n / 4096 == n / 64 / 64;
    } else {
      assert n / 4096 == n / 64 / 64 && n / 262144 == n / 4096 / 64;
    }
  }

  lemma {:induction false} Utf8RoundTrip(text: string)
    ensures FromUtf8(Utf8(text)) == Some(text)
  {
    if text != "" {
      var first, rest := CharBytes(text[0]), Utf8(text[1..]);
      CharBytesDecode(text[0]);
      Utf8RoundTrip(text[1..]);
      assert (first + rest)[..|first|] == first && (first + rest)[|first|..] == rest;
      assert text == [text[0]] + text[1..];
    }
  }

  // ---------------------------------------------------------------------------
  // Percent-encoding
  // ---------------------------------------------------------------------------

  /** Section 2.3 of RFC 3986: the characters that never need encoding. */
  predicate Unreserved(b: int) {
    'A' as int <= b <= 'Z' as int || 'a' as int <= b <= 'z' as int || '0' as int <= b <= '9' as int
    || b == '-' as int || b == '.' as int || b == '_' as int || b == '~' as int
  }

  type Nibble = v: int | 0 <= v < 16

  function HexDigit(v: Nibble): char {
    if v < 10 then ('0' as int + v) as char else ('A' as int + v - 10) as char
  }

  function HexValue(c: char): Option<Nibble> {
    if '0' <= c <= '9' then Some(c as int - '0' as int)
    else if 'A' <= c <= 'F' then Some(c as int - 'A' as int + 10)
    else if 'a' <= c <= 'f' then Some(c as int - 'a' as int + 10)
    else None
  }

  function QuoteByte(b: Byte): string {
    if Unreserved(b) then [b as char] else ['%', HexDigit(b / 16), HexDigit(b % 16)]
  }

  const HEX_DIGITS := Chars('0', 10) + Chars('A', 6)
  const LOWER_DIGITS := Chars('0', 10) + Chars('a', 6)

  const PLAIN := Chars('A', 26) + Chars('a', 26) + Chars('0', 10) + "-._~"

  /** Letters, digits, "-", ".", "_" and "~" stand for themselves; any other byte is "%" and two upper-case digits. */
  lemma QuotedByteReads(b: Byte)
    ensures |HEX_DIGITS| == 16
    ensures QuoteByte(b)
         == if b < 128 && (b as char) in PLAIN then [b as char] else ['%', HEX_DIGITS[b / 16], HEX_DIGITS[b % 16]]
  {
    DigitReads(b / 16);
    DigitReads(b % 16);
    UnreservedIsPlain(b);
  }

  lemma DigitReads(v: Nibble)
    ensures |HEX_DIGITS| == 16 && HexDigit(v) == HEX_DIGITS[v]
  {
  }

  /** Digits are written in upper case and read in both. */
  lemma DigitsOfBothCasesAreRead(c: char)
    ensures |HEX_DIGITS| == |LOWER_DIGITS| == 16
    ensures forall v: Nibble :: HexValue(c) == Some(v) <==> c == HEX_DIGITS[v] || c == LOWER_DIGITS[v]
  {
  }

  lemma UnreservedIsPlain(b: Byte)
    ensures Unreserved(b) <==> b < 128 && (b as char) in PLAIN
  {
    if Unreserved(b) {
      var c := b as char;
      if 'A' <= c <= 'Z' { assert PLAIN[b - 'A' as int] == c; }
      else if 'a' <= c <= 'z' { assert PLAIN[26 + b - 'a' as int] == c; }
      else if '0' <= c <= '9' { assert PLAIN[52 + b - '0' as int] == c; }
      else { assert PLAIN[62..] == "-._~" && c in PLAIN[62..]; }
    }
  }

  /** The first bits of a byte of UTF-8 say how long its character is, and the rest is the code point in base 64. */
  lemma CharBytesAreUtf8(c: char)
    ensures var n := c as int;
            var b: seq<int> := CharBytes(c);
            && (n < 0x80 ==> b == [n])
            && (0x80 <= n < 0x800 ==>
                  |b| == 2 && 0xC2 <= b[0] <= 0xDF && n == (b[0] - 0xC0) * 64 + (b[1] - 0x80))
            && (0x800 <= n < 0x10000 ==>
                  |b| == 3 && 0xE0 <= b[0] <= 0xEF && n == ((b[0] - 0xE0) * 64 + (b[1] - 0x80)) * 64 + (b[2] - 0x80))
            && (0x10000 <= n ==>
                  && |b| == 4 && 0xF0 <= b[0] <= 0xF4
                  && n == (((b[0] - 0xF0) * 64 + (b[1] - 0x80)) * 64 + (b[2] - 0x80)) * 64 + (b[3] - 0x80))
            && forall k :: 1 <= k < |b| ==> 0x80 <= b[k] <= 0xBF
  {
    CharBytesDecode(c);
  }

  function QuoteBytes(bytes: seq<Byte>): string {
    if bytes == [] then "" else QuoteByte(bytes[0]) + QuoteBytes(bytes[1..])
  }

  function Quote(text: string): string {
    QuoteBytes(Utf8(text))
  }

  function UnquoteBytes(text: string): Option<seq<Byte>> {
    if text == "" then Some([])
    else if text[0] == '%' then
      if |text| < 3 || HexValue(text[1]).None? || HexValue(text[2]).None? then None
      else
        (match UnquoteBytes(text[3..])
         case Some(rest) => Some([HexValue(text[1]).value * 16 + HexValue(text[2]).value] + rest)
         case None => None)
    else if text[0] as int >= 128 then None
    else
      match UnquoteBytes(text[1..])
      case Some(rest) => Some([text[0] as int] + rest)
      case None => None
  }

  function Unquote(text: string): Option<string> {
    match UnquoteBytes(text)
    case Some(bytes) => FromUtf8(bytes)
    case None => None
  }

  lemma DigitsRoundTrip(v: Nibble)
    ensures HexValue(HexDigit(v)) == Some(v)
  {
  }

  lemma EncodedByteRoundTrip(b: Byte, rest: string)
    requires UnquoteBytes(rest).Some?
    ensures UnquoteBytes(['%', HexDigit(b / 16), HexDigit(b % 16)] + rest) == Some([b] + UnquoteBytes(rest).value)
  {
    var high: Nibble, low: Nibble := b / 16, b % 16;
    var text := ['%', HexDigit(high), HexDigit(low)] + rest;
    DigitsRoundTrip(high);
    DigitsRoundTrip(low);
    assert text[3..] == rest;
    assert b == high * 16 + low;
  }

  lemma OneByteRoundTrip(b: Byte, rest: string)
    requires UnquoteBytes(rest).Some?
    ensures UnquoteBytes(QuoteByte(b) + rest) == Some([b] + UnquoteBytes(rest).value)
  {
    if Unreserved(b) {
      assert (QuoteByte(b) + rest)[1..] == rest;
    } else {
      EncodedByteRoundTrip(b, rest);
    }
  }

  lemma {:induction false} BytesRoundTrip(bytes: seq<Byte>)
    ensures UnquoteBytes(QuoteBytes(bytes)) == Some(bytes)
  {
    if bytes != [] {
      BytesRoundTrip(bytes[1..]);
      OneByteRoundTrip(bytes[0], QuoteBytes(bytes[1..]));
      assert bytes == [bytes[0]] + bytes[1..];
    }
  }

  /** Every text comes back from its quotation. */
  lemma QuoteRoundTrip(text: string)
    ensures Unquote(Quote(text)) == Some(text)
  {
    BytesRoundTrip(Utf8(text));
    Utf8RoundTrip(text);
  }

  /** A quotation consists of unreserved characters and '%', so no delimiter survives in it. */
  lemma {:induction false} QuotationIsPlain(bytes: seq<Byte>)
    ensures forall c :: c in QuoteBytes(bytes) ==> Unreserved(c as int) || c == '%'
  {
    if bytes != [] {
      QuotationIsPlain(bytes[1..]);
    }
  }
}
