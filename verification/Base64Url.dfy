/**
 Unpadded base64url (backend/oidc.py): what the PKCE helpers write and the JWS header reader reads
 back.  The encoder emits padding, the writer strips it, and the reader restores it from the length.
 The decoder of sections 4 and 5 of RFC 4648 is strict; the reader's is Python's, which is lenient.
 */
module Base64Url {
  import opened Bytes
  import opened Options

  type Sextet = v: int | 0 <= v < 64

  /** The alphabet of section 5 of RFC 4648. */
  function Symbol(v: Sextet): char {
    if v < 26 then ('A' as int + v) as char
    else if v < 52 then ('a' as int + v - 26) as char
    else if v < 62 then ('0' as int + v - 52) as char
    else if v == 62 then '-'
    else '_'
  }

  function Value(c: char): Option<Sextet> {
    if 'A' <= c <= 'Z' then Some(c as int - 'A' as int)
    else if 'a' <= c <= 'z' then Some(c as int - 'a' as int + 26)
    else if '0' <= c <= '9' then Some(c as int - '0' as int + 52)
    else if c == '-' then Some(62)
    else if c == '_' then Some(63)
    else None
  }

  lemma SymbolsAreExact(v: Sextet, c: char)
    ensures Value(Symbol(v)) == Some(v)
    ensures Value(c).Some? ==> Symbol(Value(c).value) == c
  {
  }

  const ALPHABET := Chars('A', 26) + Chars('a', 26) + Chars('0', 10) + "-_"

  /** Table 2 of RFC 4648, in order. */
  lemma SymbolsFollowTheTable(v: Sextet)
    ensures |ALPHABET| == 64 && Symbol(v) == ALPHABET[v]
  {
  }

  // Three bytes as four sextets, and back.

  function Top(x: Byte): Sextet { x / 4 }

  function UpperMiddle(x: Byte, y: Byte): Sextet { x % 4 * 16 + y / 16 }

  function LowerMiddle(y: Byte, z: Byte): Sextet { y % 16 * 4 + z / 64 }

  function Bottom(z: Byte): Sextet { z % 64 }

  function First(a: Sextet, b: Sextet): Byte { a * 4 + b / 16 }

  function Second(b: Sextet, c: Sextet): Byte { b % 16 * 16 + c / 4 }

  function Third(c: Sextet, d: Sextet): Byte { c % 4 * 64 + d }

  lemma SextetsBecomeBytes(x: Byte, y: Byte, z: Byte)
    ensures First(Top(x), UpperMiddle(x, y)) == x
    ensures Second(UpperMiddle(x, y), LowerMiddle(y, z)) == y
    ensures Third(LowerMiddle(y, z), Bottom(z)) == z
    ensures UpperMiddle(x, 0) % 16 == 0 && LowerMiddle(y, 0) % 4 == 0
  {
  }

  /** A group is one number, written to the base of 256 and then of 64, most significant first. */
  lemma GroupIsOneNumber(x: Byte, y: Byte, z: Byte)
    ensures 65536 * x + 256 * y + z
         == 262144 * Top(x) + 4096 * UpperMiddle(x, y) + 64 * LowerMiddle(y, z) + Bottom(z)
  {
  }

  lemma BytesBecomeSextets(a: Sextet, b: Sextet, c: Sextet, d: Sextet)
    ensures Top(First(a, b)) == a
    ensures UpperMiddle(First(a, b), Second(b, c)) == b
    ensures LowerMiddle(Second(b, c), Third(c, d)) == c
    ensures Bottom(Third(c, d)) == d
  {
  }

  /** Groups of three bytes become four symbols; a short last group is filled up with '='. */
  function Encode(bytes: seq<Byte>): string {
    if bytes == [] then ""
    else if |bytes| == 1 then
      [Symbol(Top(bytes[0])), Symbol(UpperMiddle(bytes[0], 0)), '=', '=']
    else if |bytes| == 2 then
      [Symbol(Top(bytes[0])), Symbol(UpperMiddle(bytes[0], bytes[1])), Symbol(LowerMiddle(bytes[1], 0)), '=']
    else
      [Symbol(Top(bytes[0])), Symbol(UpperMiddle(bytes[0], bytes[1])),
       Symbol(LowerMiddle(bytes[1], bytes[2])), Symbol(Bottom(bytes[2]))] + Encode(bytes[3..])
  }

  /** The strict decoder: whole groups, padding only at the very end, no stray bits beneath it. */
  function Decode(text: string): Option<seq<Byte>> {
    if text == "" then Some([])
    else if |text| < 4 || Value(text[0]).None? || Value(text[1]).None? then None
    else
      var a, b := Value(text[0]).value, Value(text[1]).value;
      if text[2..] == "==" then
        if b % 16 == 0 then Some([First(a, b)]) else None
      else if Value(text[2]).None? then None
      else
        var c := Value(text[2]).value;
        if text[3..] == "=" then
          if c % 4 == 0 then Some([First(a, b), Second(b, c)]) else None
        else if Value(text[3]).None? || Decode(text[4..]).None? then None
        else Some([First(a, b), Second(b, c), Third(c, Value(text[3]).value)] + Decode(text[4..]).value)
  }

  /** A whole group in front decodes to its three bytes. */
  lemma WholeGroup(a: Sextet, b: Sextet, c: Sextet, d: Sextet, rest: string)
    ensures var text := [Symbol(a), Symbol(b), Symbol(c), Symbol(d)] + rest;
            Decode(text) == if Decode(rest).None? then None
                            else Some([First(a, b), Second(b, c), Third(c, d)] + Decode(rest).value)
  {
    var text := [Symbol(a), Symbol(b), Symbol(c), Symbol(d)] + rest;
    SymbolsAreExact(a, '=');
    SymbolsAreExact(b, '=');
    SymbolsAreExact(c, '=');
    SymbolsAreExact(d, '=');
    assert text[4..] == rest;
    assert text[2..][0] == Symbol(c) && text[3..][0] == Symbol(d);
  }

  lemma GroupOfTwo(a: Sextet, b: Sextet, c: Sextet)
    requires c % 4 == 0
    ensures Decode([Symbol(a), Symbol(b), Symbol(c), '=']) == Some([First(a, b), Second(b, c)])
  {
    var text := [Symbol(a), Symbol(b), Symbol(c), '='];
    SymbolsAreExact(a, '=');
    SymbolsAreExact(b, '=');
    SymbolsAreExact(c, '=');
    assert text[2..][0] == Symbol(c) && text[3..] == "=";
  }

  lemma GroupOfOne(a: Sextet, b: Sextet)
    requires b % 16 == 0
    ensures Decode([Symbol(a), Symbol(b), '=', '=']) == Some([First(a, b)])
  {
    SymbolsAreExact(a, '=');
    SymbolsAreExact(b, '=');
    assert [Symbol(a), Symbol(b), '=', '='][2..] == "==";
  }

  lemma GroupIsReadBack(x: Byte, y: Byte, z: Byte, rest: seq<Byte>)
    requires Decode(Encode(rest)) == Some(rest)
    ensures Decode(Encode([x, y, z] + rest)) == Some([x, y, z] + rest)
  {
    SextetsBecomeBytes(x, y, z);
    WholeGroup(Top(x), UpperMiddle(x, y), LowerMiddle(y, z), Bottom(z), Encode(rest));
    assert ([x, y, z] + rest)[3..] == rest;
  }

  lemma TwoBytesAreReadBack(x: Byte, y: Byte)
    ensures Decode(Encode([x, y])) == Some([x, y])
  {
    SextetsBecomeBytes(x, y, 0);
    GroupOfTwo(Top(x), UpperMiddle(x, y), LowerMiddle(y, 0));
  }

  lemma OneByteIsReadBack(x: Byte)
    ensures Decode(Encode([x])) == Some([x])
  {
    SextetsBecomeBytes(x, 0, 0);
    GroupOfOne(Top(x), UpperMiddle(x, 0));
  }

  /** The decoder returns what the encoder was given. */
  lemma {:induction false} DecodeInvertsEncode(bytes: seq<Byte>)
    ensures Decode(Encode(bytes)) == Some(bytes)
    decreases |bytes|
  {
    if |bytes| >= 3 {
      DecodeInvertsEncode(bytes[3..]);
      GroupIsReadBack(bytes[0], bytes[1], bytes[2], bytes[3..]);
      assert bytes == [bytes[0], bytes[1], bytes[2]] + bytes[3..];
    } else if |bytes| == 2 {
      TwoBytesAreReadBack(bytes[0], bytes[1]);
      assert bytes == [bytes[0], bytes[1]];
    } else if |bytes| == 1 {
      OneByteIsReadBack(bytes[0]);
      assert bytes == [bytes[0]];
    }
  }

  lemma GroupIsWrittenBack(a: Sextet, b: Sextet, c: Sextet, d: Sextet, rest: seq<Byte>)
    ensures Encode([First(a, b), Second(b, c), Third(c, d)] + rest)
            == [Symbol(a), Symbol(b), Symbol(c), Symbol(d)] + Encode(rest)
  {
    var bytes := [First(a, b), Second(b, c), Third(c, d)] + rest;
    BytesBecomeSextets(a, b, c, d);
    assert bytes[3..] == rest;
  }

  lemma LonePair(a: Sextet, b: Sextet, c: Sextet)
    requires c % 4 == 0
    ensures Top(First(a, b)) == a && UpperMiddle(First(a, b), Second(b, c)) == b && LowerMiddle(Second(b, c), 0) == c
  {
  }

  lemma TwoBytesAreEncoded(x: Byte, y: Byte)
    ensures Encode([x, y]) == [Symbol(Top(x)), Symbol(UpperMiddle(x, y)), Symbol(LowerMiddle(y, 0)), '=']
  {
  }

  lemma TwoBytesAreWrittenBack(a: Sextet, b: Sextet, c: Sextet)
    requires c % 4 == 0
    ensures Encode([First(a, b), Second(b, c)]) == [Symbol(a), Symbol(b), Symbol(c), '=']
  {
    LonePair(a, b, c);
    TwoBytesAreEncoded(First(a, b), Second(b, c));
  }

  lemma LoneByte(a: Sextet, b: Sextet)
    requires b % 16 == 0
    ensures Top(First(a, b)) == a && UpperMiddle(First(a, b), 0) == b
  {
  }

  lemma OneByteIsEncoded(x: Byte)
    ensures Encode([x]) == [Symbol(Top(x)), Symbol(UpperMiddle(x, 0)), '=', '=']
  {
  }

  lemma OneByteIsWrittenBack(a: Sextet, b: Sextet)
    requires b % 16 == 0
    ensures Encode([First(a, b)]) == [Symbol(a), Symbol(b), '=', '=']
  {
    LoneByte(a, b);
    OneByteIsEncoded(First(a, b));
  }

  lemma OneByteTextIsWrittenBack(text: string)
    requires Decode(text).Some? && text != "" && text[2..] == "=="
    ensures Encode(Decode(text).value) == text
  {
    var a, b := Value(text[0]).value, Value(text[1]).value;
    SymbolsAreExact(a, text[0]);
    SymbolsAreExact(b, text[1]);
    assert text == [text[0], text[1]] + text[2..];
    OneByteIsWrittenBack(a, b);
  }

  lemma TwoByteTextIsWrittenBack(text: string)
    requires Decode(text).Some? && text != "" && text[2..] != "==" && text[3..] == "="
    ensures Encode(Decode(text).value) == text
  {
    var a, b, c := Value(text[0]).value, Value(text[1]).value, Value(text[2]).value;
    SymbolsAreExact(a, text[0]);
    SymbolsAreExact(b, text[1]);
    SymbolsAreExact(c, text[2]);
    assert text == [text[0], text[1], text[2]] + text[3..];
    TwoBytesAreWrittenBack(a, b, c);
  }

  lemma GroupTextIsWrittenBack(text: string)
    requires Decode(text).Some? && text != "" && text[2..] != "==" && text[3..] != "="
    requires Decode(text[4..]).Some? ==> Encode(Decode(text[4..]).value) == text[4..]
    ensures Encode(Decode(text).value) == text
  {
    var a, b := Value(text[0]).value, Value(text[1]).value;
    var c, d := Value(text[2]).value, Value(text[3]).value;
    SymbolsAreExact(a, text[0]);
    SymbolsAreExact(b, text[1]);
    SymbolsAreExact(c, text[2]);
    SymbolsAreExact(d, text[3]);
    GroupIsWrittenBack(a, b, c, d, Decode(text[4..]).value);
    assert text == [text[0], text[1], text[2], text[3]] + text[4..];
  }

  /** Whatever the decoder accepts, the encoder would have written: no second spelling. */
  lemma {:induction false} EncodeInvertsDecode(text: string)
    requires Decode(text).Some?
    ensures Encode(Decode(text).value) == text
    decreases |text|
  {
    if text == "" {
    } else if text[2..] == "==" {
      OneByteTextIsWrittenBack(text);
    } else if text[3..] == "=" {
      TwoByteTextIsWrittenBack(text);
    } else {
      if Decode(text[4..]).Some? { EncodeInvertsDecode(text[4..]); }
      GroupTextIsWrittenBack(text);
    }
  }

  // ---------------------------------------------------------------------------
  // Without padding
  // ---------------------------------------------------------------------------

  /** Python's rstrip("="). */
  function Strip(text: string): string {
    if text != "" && text[|text| - 1] == '=' then Strip(text[..|text| - 1]) else text
  }

  function Equals(n: nat): string {
    seq(n, _ => '=')
  }

  /** The reader's padding: "=" repeated -len % 4 times. */
  function Pad(text: string): string {
    text + Equals(-|text| % 4)
  }

  function Unpadded(bytes: seq<Byte>): string {
    Strip(Encode(bytes))
  }

  /** How many '=' the encoder appends. */
  function Filler(bytes: seq<Byte>): nat {
    (3 - |bytes| % 3) % 3
  }

  lemma {:induction false} StripDropsTrailingPads(body: string, n: nat)
    requires forall c :: c in body ==> c != '='
    ensures Strip(body + Equals(n)) == body
  {
    var text := body + Equals(n);
    if n > 0 {
      assert text[..|text| - 1] == body + Equals(n - 1);
      StripDropsTrailingPads(body, n - 1);
    } else {
      assert text == body;
      assert body != "" ==> body[|body| - 1] in body;
    }
  }

  lemma LastGroup(bytes: seq<Byte>)
    requires |bytes| < 3
    ensures var n := (4 * |bytes| + 2) / 3;
            && n <= |Encode(bytes)| && Encode(bytes)[n..] == Equals(Filler(bytes))
            && forall k :: 0 <= k < n ==> Value(Encode(bytes)[k]).Some?
  {
    if |bytes| == 1 {
      assert Encode(bytes)[2..] == Equals(2);
    } else if |bytes| == 2 {
      assert Encode(bytes)[3..] == Equals(1);
    } else {
      assert Encode(bytes) == Equals(0);
    }
  }

  lemma FirstGroup(bytes: seq<Byte>)
    requires |bytes| >= 3
    ensures |Encode(bytes)| >= 4 && Encode(bytes)[4..] == Encode(bytes[3..])
    ensures forall k :: 0 <= k < 4 ==> Value(Encode(bytes)[k]).Some?
  {
  }

  lemma LengthStep(n: nat)
    ensures (4 * (n + 3) + 2) / 3 == 4 + (4 * n + 2) / 3
    ensures (3 - (n + 3) % 3) % 3 == (3 - n % 3) % 3
  {
  }

  /** The encoding is a '='-free body of ceil(4n/3) symbols and then the filler. */
  lemma {:induction false} EncodingEndsInFiller(bytes: seq<Byte>)
    ensures var n := (4 * |bytes| + 2) / 3;
            && n <= |Encode(bytes)| && Encode(bytes)[n..] == Equals(Filler(bytes))
            && forall k :: 0 <= k < n ==> Value(Encode(bytes)[k]).Some?
    decreases |bytes|
  {
    if |bytes| >= 3 {
      var rest := bytes[3..];
      EncodingEndsInFiller(rest);
      FirstGroup(bytes);
      LengthStep(|rest|);
      var n := (4 * |rest| + 2) / 3;
      assert Encode(bytes)[4 + n..] == Encode(rest)[n..];
      forall k | 4 <= k < 4 + n
        ensures Value(Encode(bytes)[k]).Some?
      {
        assert Encode(bytes)[k] == Encode(rest)[k - 4];
      }
    } else {
      LastGroup(bytes);
    }
  }

  lemma UnpaddedIsTheBody(bytes: seq<Byte>)
    ensures Encode(bytes) == Unpadded(bytes) + Equals(Filler(bytes))
    ensures |Unpadded(bytes)| == (4 * |bytes| + 2) / 3
    ensures forall c :: c in Unpadded(bytes) ==> Value(c).Some?
  {
    EncodingEndsInFiller(bytes);
    var n := (4 * |bytes| + 2) / 3;
    var body := Encode(bytes)[..n];
    assert Value('=').None?;
    assert Encode(bytes) == body + Equals(Filler(bytes));
    StripDropsTrailingPads(body, Filler(bytes));
  }

  /** For every byte sequence: encode, strip, restore the padding, decode. */
  lemma RoundTrip(bytes: seq<Byte>)
    ensures Decode(Pad(Unpadded(bytes))) == Some(bytes)
  {
    UnpaddedIsTheBody(bytes);
    FillerFromLength(|bytes|);
    assert Pad(Unpadded(bytes)) == Encode(bytes);
    DecodeInvertsEncode(bytes);
  }

  /** The length of the stripped text determines how much padding was stripped. */
  lemma FillerFromLength(n: nat)
    ensures -((4 * n + 2) / 3) % 4 == (3 - n % 3) % 3
    ensures (4 * n + 2) / 3 % 4 != 1
    ensures 3 * ((4 * n + 2) / 3) - 2 <= 4 * n <= 3 * ((4 * n + 2) / 3)
  {
    var q := n / 3;
    if n % 3 == 0 {
      assert n == 3 * q && (4 * n + 2) / 3 == 4 * q;
    } else if n % 3 == 1 {
      assert n == 3 * q + 1 && (4 * n + 2) / 3 == 4 * q + 2;
    } else {
      assert n == 3 * q + 2 && (4 * n + 2) / 3 == 4 * q + 3;
    }
  }

  /** The stripped text has ceil(4n/3) symbols, never one more than a multiple of four. */
  lemma UnpaddedLength(bytes: seq<Byte>)
    ensures 3 * |Unpadded(bytes)| - 2 <= 4 * |bytes| <= 3 * |Unpadded(bytes)|
    ensures |Unpadded(bytes)| % 4 != 1
  {
    UnpaddedIsTheBody(bytes);
    FillerFromLength(|bytes|);
  }

  /** Different bytes, different text. */
  lemma UnpaddedIsInjective(a: seq<Byte>, b: seq<Byte>)
    requires Unpadded(a) == Unpadded(b)
    ensures a == b
  {
    RoundTrip(a);
    RoundTrip(b);
  }

  lemma {:induction false} StripUndoesPad(text: string, n: nat)
    requires Strip(text) == text
    ensures Strip(text + Equals(n)) == text
  {
    var padded := text + Equals(n);
    if n > 0 {
      assert padded[..|padded| - 1] == text + Equals(n - 1);
      StripUndoesPad(text, n - 1);
    } else {
      assert padded == text;
    }
  }

  // ---------------------------------------------------------------------------
  // The lenient reader
  // ---------------------------------------------------------------------------

  /** Python translates '-' and '_' to '+' and '/' and then reads those. */
  function LooseValue(c: char): Option<Sextet> {
    if c == '+' then Some(62) else if c == '/' then Some(63) else Value(c)
  }

  /** The bytes of a row of symbols; bits beneath the last whole byte are dropped. */
  function BytesOf(symbols: seq<Sextet>): seq<Byte>
    requires |symbols| % 4 != 1
  {
    if symbols == [] then []
    else if |symbols| == 2 then [First(symbols[0], symbols[1])]
    else if |symbols| == 3 then [First(symbols[0], symbols[1]), Second(symbols[1], symbols[2])]
    else
      [First(symbols[0], symbols[1]), Second(symbols[1], symbols[2]), Third(symbols[2], symbols[3])]
      + BytesOf(symbols[4..])
  }

  /**
   Python's decoder, with the symbols it has seen and the '=' since the last of them.  A '=' counts from
   the second symbol of a group on, and ends the text once it fills the group up; other characters
   are passed over.
   */
  function Scan(text: string, symbols: seq<Sextet>, pads: nat): (all: Option<seq<Sextet>>)
    ensures all.Some? ==> |all.value| % 4 != 1
    decreases |text|
  {
    var left := |symbols| % 4;
    if text == "" then
      if left == 0 then Some(symbols) else None
    else if text[0] == '=' then
      if left < 2 then Scan(text[1..], symbols, pads)
      else if left + pads + 1 >= 4 then Some(symbols)
      else Scan(text[1..], symbols, pads + 1)
    else if LooseValue(text[0]).None? then Scan(text[1..], symbols, pads)
    else Scan(text[1..], symbols + [LooseValue(text[0]).value], 0)
  }

  function Lenient(text: string): Option<seq<Byte>> {
    match Scan(text, [], 0)
    case None => None
    case Some(symbols) => Some(BytesOf(symbols))
  }

  /** The '+' and '/' of the other alphabet mean 62 and 63 as well; nothing outside the two means anything. */
  lemma BothAlphabetsAreRead(c: char)
    ensures LooseValue('+') == LooseValue('-') == Some(62) && LooseValue('/') == LooseValue('_') == Some(63)
    ensures LooseValue(c).Some? <==> c in ALPHABET || c == '+' || c == '/'
  {
    if Value(c).Some? {
      SymbolsAreExact(0, c);
      SymbolsFollowTheTable(Value(c).value);
    }
    if v: nat :| v < |ALPHABET| && ALPHABET[v] == c {
      SymbolsFollowTheTable(v);
      SymbolsAreExact(v, c);
    }
  }

  predicate Ascii(text: string) {
    forall c :: c in text ==> c as int < 128
  }

  /** What the header reader makes of a segment; a character outside ASCII cannot be encoded. */
  function Read(segment: string): Option<seq<Byte>> {
    if Ascii(segment) then Lenient(Pad(segment)) else None
  }

  /** The symbols of a text, foreign characters passed over. */
  function Symbols(text: string): seq<Sextet> {
    if text == "" then []
    else if LooseValue(text[0]).None? then Symbols(text[1..])
    else [LooseValue(text[0]).value] + Symbols(text[1..])
  }

  /** So many symbols come in whole groups, or leave two or three over that the '=' fill up. */
  predicate Complete(symbols: nat, pads: nat) {
    var left := symbols % 4;
    left == 0 || (left >= 2 && left + pads >= 4)
  }

  lemma {:induction false} ScanPads(symbols: seq<Sextet>, seen: nat, n: nat)
    requires if |symbols| % 4 < 2 then seen == 0 else |symbols| % 4 + seen < 4
    ensures Scan(Equals(n), symbols, seen) == if Complete(|symbols|, seen + n) then Some(symbols) else None
    decreases n
  {
    if n > 0 {
      assert Equals(n)[1..] == Equals(n - 1);
      var left := |symbols| % 4;
      if left < 2 {
        ScanPads(symbols, 0, n - 1);
      } else if left + seen + 1 < 4 {
        ScanPads(symbols, seen + 1, n - 1);
      }
    }
  }

  /** The character-by-character reader finds the symbols of the text, if they are complete. */
  lemma {:induction false} ScanFindsSymbols(text: string, before: seq<Sextet>, n: nat)
    requires '=' !in text
    ensures var all := before + Symbols(text);
            Scan(text + Equals(n), before, 0) == if Complete(|all|, n) then Some(all) else None
    decreases |text|
  {
    if text == "" {
      assert text + Equals(n) == Equals(n) && before + Symbols(text) == before;
      ScanPads(before, 0, n);
    } else {
      assert (text + Equals(n))[1..] == text[1..] + Equals(n) && (text + Equals(n))[0] == text[0];
      if LooseValue(text[0]).None? {
        ScanFindsSymbols(text[1..], before, n);
      } else {
        var v := LooseValue(text[0]).value;
        assert before + Symbols(text) == (before + [v]) + Symbols(text[1..]);
        ScanFindsSymbols(text[1..], before + [v], n);
      }
    }
  }

  /**
   A segment without '=' is read exactly when it is ASCII and its symbols come in whole groups, or
   leave two or three over that the restored padding fills up; the padding counts foreign
   characters too.  The bytes are those of the symbols.
   */
  lemma ReaderAcceptsExactlyWhen(text: string)
    requires '=' !in text
    ensures Read(text).Some? <==>
            (forall c :: c in text ==> c as int < 128) && Complete(|Symbols(text)|, -|text| % 4)
    ensures Read(text).Some? ==> |Symbols(text)| % 4 != 1 && Read(text).value == BytesOf(Symbols(text))
  {
    ScanFindsSymbols(text, [], -|text| % 4);
    assert [] + Symbols(text) == Symbols(text);
  }

  /** Only symbols of the URL-safe alphabet. */
  predicate OnlySymbols(text: string) {
    forall k :: 0 <= k < |text| ==> Value(text[k]).Some?
  }

  function Values(text: string): (values: seq<Sextet>)
    requires OnlySymbols(text)
    ensures |values| == |text|
  {
    seq(|text|, k requires 0 <= k < |text| => Value(text[k]).value)
  }

  lemma {:induction false} AllAreSymbols(text: string)
    requires OnlySymbols(text)
    ensures Symbols(text) == Values(text) && '=' !in text && Ascii(text)
  {
    if text != "" {
      AllAreSymbols(text[1..]);
      assert text == [text[0]] + text[1..];
      assert Values(text) == [Value(text[0]).value] + Values(text[1..]);
    }
  }

  lemma WrittenTextIsSymbols(bytes: seq<Byte>)
    ensures OnlySymbols(Unpadded(bytes))
  {
    UnpaddedIsTheBody(bytes);
    forall k | 0 <= k < |Unpadded(bytes)|
      ensures Value(Unpadded(bytes)[k]).Some?
    {
      assert Unpadded(bytes)[k] in Unpadded(bytes);
    }
  }

  /** The symbols the writer writes. */
  function Sextets(bytes: seq<Byte>): seq<Sextet> {
    if bytes == [] then []
    else if |bytes| == 1 then [Top(bytes[0]), UpperMiddle(bytes[0], 0)]
    else if |bytes| == 2 then [Top(bytes[0]), UpperMiddle(bytes[0], bytes[1]), LowerMiddle(bytes[1], 0)]
    else
      [Top(bytes[0]), UpperMiddle(bytes[0], bytes[1]), LowerMiddle(bytes[1], bytes[2]), Bottom(bytes[2])]
      + Sextets(bytes[3..])
  }

  function Spell(symbols: seq<Sextet>): string {
    seq(|symbols|, k requires 0 <= k < |symbols| => Symbol(symbols[k]))
  }

  lemma {:induction false} EncodingSpellsSextets(bytes: seq<Byte>)
    ensures Encode(bytes) == Spell(Sextets(bytes)) + Equals(Filler(bytes))
    decreases |bytes|
  {
    if |bytes| >= 3 {
      EncodingSpellsSextets(bytes[3..]);
      LengthStep(|bytes| - 3);
    }
  }

  lemma SpellingIsReadBack(symbols: seq<Sextet>)
    ensures OnlySymbols(Spell(symbols)) && Values(Spell(symbols)) == symbols
  {
    forall k | 0 <= k < |symbols|
      ensures Value(Spell(symbols)[k]) == Some(symbols[k])
    {
      SymbolsAreExact(symbols[k], '=');
    }
  }

  lemma UnpaddedSpellsSextets(bytes: seq<Byte>)
    ensures Unpadded(bytes) == Spell(Sextets(bytes))
  {
    EncodingSpellsSextets(bytes);
    SpellingIsReadBack(Sextets(bytes));
    var body := Spell(Sextets(bytes));
    forall c | c in body ensures c != '=' { var k :| 0 <= k < |body| && body[k] == c; assert Value(c).Some?; }
    StripDropsTrailingPads(body, Filler(bytes));
  }

  lemma FourSextets(x: Byte, y: Byte, z: Byte, rest: seq<Sextet>)
    requires |rest| % 4 != 1
    ensures var symbols := [Top(x), UpperMiddle(x, y), LowerMiddle(y, z), Bottom(z)] + rest;
            |symbols| % 4 != 1 && BytesOf(symbols) == [x, y, z] + BytesOf(rest)
  {
    SextetsBecomeBytes(x, y, z);
    var symbols := [Top(x), UpperMiddle(x, y), LowerMiddle(y, z), Bottom(z)] + rest;
    assert symbols[4..] == rest;
  }

  lemma BytesOfThree(a: Sextet, b: Sextet, c: Sextet)
    ensures BytesOf([a, b, c]) == [First(a, b), Second(b, c)]
  {
  }

  lemma BytesOfTwo(a: Sextet, b: Sextet)
    ensures BytesOf([a, b]) == [First(a, b)]
  {
  }

  lemma ThreeSextets(x: Byte, y: Byte)
    ensures |Sextets([x, y])| == 3 && BytesOf(Sextets([x, y])) == [x, y]
  {
    SextetsBecomeBytes(x, y, 0);
    BytesOfThree(Top(x), UpperMiddle(x, y), LowerMiddle(y, 0));
  }

  lemma LoneSextets(x: Byte)
    ensures Sextets([x]) == [Top(x), UpperMiddle(x, 0)]
  {
  }

  lemma LoneByteComesBack(x: Byte)
    ensures First(Top(x), UpperMiddle(x, 0)) == x
  {
  }

  lemma TwoSextets(x: Byte)
    ensures |Sextets([x])| == 2 && BytesOf(Sextets([x])) == [x]
  {
    LoneSextets(x);
    LoneByteComesBack(x);
    BytesOfTwo(Top(x), UpperMiddle(x, 0));
  }

  lemma {:induction false} SextetsComeBack(bytes: seq<Byte>)
    ensures |Sextets(bytes)| % 4 != 1 && BytesOf(Sextets(bytes)) == bytes
    decreases |bytes|
  {
    if |bytes| >= 3 {
      SextetsComeBack(bytes[3..]);
      FourSextets(bytes[0], bytes[1], bytes[2], Sextets(bytes[3..]));
      assert bytes == [bytes[0], bytes[1], bytes[2]] + bytes[3..];
    } else if |bytes| == 2 {
      ThreeSextets(bytes[0], bytes[1]);
      assert bytes == [bytes[0], bytes[1]];
    } else if |bytes| == 1 {
      TwoSextets(bytes[0]);
      assert bytes == [bytes[0]];
    }
  }

  lemma CompleteStep(symbols: nat, pads: nat)
    ensures Complete(symbols + 4, pads) <==> Complete(symbols, pads)
  {
  }

  lemma {:induction false} SextetsAreComplete(bytes: seq<Byte>)
    ensures Complete(|Sextets(bytes)|, Filler(bytes))
    decreases |bytes|
  {
    if |bytes| >= 3 {
      SextetsAreComplete(bytes[3..]);
      LengthStep(|bytes| - 3);
      CompleteStep(|Sextets(bytes[3..])|, Filler(bytes));
    }
  }

  lemma SpelledTextIsLenient(symbols: seq<Sextet>, n: nat)
    requires Complete(|symbols|, n)
    ensures Lenient(Spell(symbols) + Equals(n)) == Some(BytesOf(symbols))
  {
    SpellingIsReadBack(symbols);
    AllAreSymbols(Spell(symbols));
    ScanFindsSymbols(Spell(symbols), [], n);
    assert [] + symbols == symbols;
  }

  /** The lenient decoder returns what the encoder was given. */
  lemma LenientInvertsEncode(bytes: seq<Byte>)
    ensures Lenient(Encode(bytes)) == Some(bytes)
  {
    EncodingSpellsSextets(bytes);
    SextetsAreComplete(bytes);
    SpelledTextIsLenient(Sextets(bytes), Filler(bytes));
    SextetsComeBack(bytes);
  }

  /** For every byte sequence: encode, strip, and read back. */
  lemma ReaderReadsWrittenText(bytes: seq<Byte>)
    ensures Read(Unpadded(bytes)) == Some(bytes)
  {
    WrittenTextIsSymbols(bytes);
    AllAreSymbols(Unpadded(bytes));
    UnpaddedIsTheBody(bytes);
    FillerFromLength(|bytes|);
    assert Pad(Unpadded(bytes)) == Encode(bytes);
    LenientInvertsEncode(bytes);
  }

  /** Whatever the strict decoder accepts, the lenient one reads alike. */
  lemma StrictTextIsReadAlike(text: string)
    requires Decode(text).Some?
    ensures Lenient(text) == Decode(text)
  {
    EncodeInvertsDecode(text);
    LenientInvertsEncode(Decode(text).value);
  }

  /** The bits of the last symbol that belong to no byte are zero. */
  predicate NoStrayBits(symbols: seq<Sextet>) {
    && (|symbols| % 4 == 2 ==> symbols[|symbols| - 1] % 16 == 0)
    && (|symbols| % 4 == 3 ==> symbols[|symbols| - 1] % 4 == 0)
  }

  lemma GroupWithoutStrays(a: Sextet, b: Sextet, c: Sextet, d: Sextet, rest: seq<Byte>)
    ensures Sextets([First(a, b), Second(b, c), Third(c, d)] + rest) == [a, b, c, d] + Sextets(rest)
  {
    BytesBecomeSextets(a, b, c, d);
    assert ([First(a, b), Second(b, c), Third(c, d)] + rest)[3..] == rest;
  }

  /** A row of symbols is the one written for its bytes exactly when it has no stray bits. */
  lemma {:induction false} RowComesBackExactlyWhen(symbols: seq<Sextet>)
    requires |symbols| % 4 != 1
    ensures Sextets(BytesOf(symbols)) == symbols <==> NoStrayBits(symbols)
    decreases |symbols|
  {
    if |symbols| >= 4 {
      var rest := symbols[4..];
      RowComesBackExactlyWhen(rest);
      GroupWithoutStrays(symbols[0], symbols[1], symbols[2], symbols[3], BytesOf(rest));
      var four := [symbols[0], symbols[1], symbols[2], symbols[3]];
      assert symbols == four + rest && (four + Sextets(BytesOf(rest)))[4..] == Sextets(BytesOf(rest));
      StraysAreInTheRest(symbols);
    } else if |symbols| == 3 {
      LastThree(symbols[0], symbols[1], symbols[2]);
      assert symbols == [symbols[0], symbols[1], symbols[2]];
    } else if |symbols| == 2 {
      LastTwo(symbols[0], symbols[1]);
      assert symbols == [symbols[0], symbols[1]];
    }
  }

  lemma StraysAreInTheRest(symbols: seq<Sextet>)
    requires |symbols| >= 4
    ensures NoStrayBits(symbols) <==> NoStrayBits(symbols[4..])
  {
    assert |symbols| == |symbols[4..]| + 4;
    if |symbols| > 4 { assert symbols[|symbols| - 1] == symbols[4..][|symbols| - 5]; }
  }

  /** Written back, a last symbol loses its stray bits. */
  lemma ThirdLosesStrays(b: Sextet, c: Sextet)
    ensures LowerMiddle(Second(b, c), 0) == c - c % 4
  {
  }

  lemma SecondLosesStrays(a: Sextet, b: Sextet)
    ensures UpperMiddle(First(a, b), 0) == b - b % 16
  {
  }

  lemma LastThree(a: Sextet, b: Sextet, c: Sextet)
    ensures Sextets([First(a, b), Second(b, c)]) == [a, b, c] <==> c % 4 == 0
  {
    BytesBecomeSextets(a, b, c, 0);
    ThirdLosesStrays(b, c);
    assert Sextets([First(a, b), Second(b, c)]) == [a, b, LowerMiddle(Second(b, c), 0)];
  }

  lemma LastTwo(a: Sextet, b: Sextet)
    ensures Sextets([First(a, b)]) == [a, b] <==> b % 16 == 0
  {
    BytesBecomeSextets(a, b, 0, 0);
    SecondLosesStrays(a, b);
    assert Sextets([First(a, b)]) == [a, UpperMiddle(First(a, b), 0)];
  }

  lemma SpellingIsExact(text: string)
    requires OnlySymbols(text)
    ensures Spell(Values(text)) == text
  {
    forall k | 0 <= k < |text| ensures Symbol(Value(text[k]).value) == text[k] { SymbolsAreExact(0, text[k]); }
  }

  /**
   Of the texts the reader accepts, exactly those are not the written one that hold anything but
   URL-safe symbols, or stray bits in the last of them.
   */
  lemma ReaderAcceptsUnwrittenExactlyWhen(text: string)
    requires Read(text).Some?
    ensures Unpadded(Read(text).value) != text <==> !OnlySymbols(text) || !NoStrayBits(Values(text))
  {
    var bytes := Read(text).value;
    WrittenTextIsSymbols(bytes);
    if OnlySymbols(text) {
      AllAreSymbols(text);
      ReaderAcceptsExactlyWhen(text);
      RowComesBackExactlyWhen(Values(text));
      UnpaddedSpellsSextets(bytes);
      SpellingIsExact(text);
      SpellingIsReadBack(Sextets(bytes));
    }
  }

  /** Two spellings of one byte sequence, both of URL-safe symbols. */
  lemma TwoSpellings()
    ensures Read("W10") == Some([0x5B, 0x5D]) && Read("W11") == Some([0x5B, 0x5D])
  {
    ReadThree("W10");
    ReadThree("W11");
    assert First(22, 53) == 0x5B && Second(53, 52) == 0x5D && Second(53, 53) == 0x5D;
  }

  lemma ReadThree(text: string)
    requires |text| == 3 && OnlySymbols(text)
    ensures var a, b, c := Value(text[0]).value, Value(text[1]).value, Value(text[2]).value;
            Read(text) == Some([First(a, b), Second(b, c)])
  {
    AllAreSymbols(text);
    ReaderAcceptsExactlyWhen(text);
  }

  // ---------------------------------------------------------------------------
  // Its two users
  // ---------------------------------------------------------------------------

  /** Section 4.1 of RFC 7636: the characters and the length of a code verifier. */
  predicate CodeVerifier(text: string) {
    43 <= |text| <= 128
    && forall c :: c in text ==>
         'A' <= c <= 'Z' || 'a' <= c <= 'z' || '0' <= c <= '9' || c == '-' || c == '.' || c == '_' || c == '~'
  }

  /** 32 random bytes make a 43-character verifier, and so does every 32-byte digest. */
  lemma ThirtyTwoBytesMakeAVerifier(bytes: seq<Byte>)
    requires |bytes| == 32
    ensures |Unpadded(bytes)| == 43 && CodeVerifier(Unpadded(bytes))
  {
    UnpaddedIsTheBody(bytes);
    forall c | c in Unpadded(bytes)
      ensures 'A' <= c <= 'Z' || 'a' <= c <= 'z' || '0' <= c <= '9' || c == '-' || c == '_'
    {
      assert Value(c).Some?;
    }
  }

  /** Everything before the first '.'. */
  function FirstSegment(token: string): string {
    if token == "" || token[0] == '.' then "" else [token[0]] + FirstSegment(token[1..])
  }

  function HeaderBytes(token: string): Option<seq<Byte>> {
    Read(FirstSegment(token))
  }

  lemma {:induction false} SegmentStopsAtTheDot(segment: string, rest: string)
    requires forall c :: c in segment ==> c != '.'
    ensures FirstSegment(segment + "." + rest) == segment
  {
    var token := segment + "." + rest;
    if segment != "" {
      assert segment[0] in segment;
      assert token[1..] == segment[1..] + "." + rest;
      assert forall c :: c in segment[1..] ==> c in segment;
      SegmentStopsAtTheDot(segment[1..], rest);
    }
  }

  /** The header of a compact token is read back whatever payload and signature follow. */
  lemma HeaderIsReadBack(header: seq<Byte>, rest: string)
    ensures HeaderBytes(Unpadded(header) + "." + rest) == Some(header)
  {
    UnpaddedIsTheBody(header);
    assert Value('.').None?;
    SegmentStopsAtTheDot(Unpadded(header), rest);
    ReaderReadsWrittenText(header);
  }
}
