/** Quoting a byte string as ASCII JSON text, scanning the text and decoding it again.
    Words are non-negative, so `x & 0x3f` is written x % 64, `x >> 6` is x / 64, and an
    or of disjoint bits is a sum. */
module JsonStrings {
  import opened Bytes
  import opened JsonNumbers

  const REPLACEMENT: nat := 0xFFFD

  // ----- writing

  /** The low six bits of a byte. */
  function Six(c: byte): nat {
    c % 64
  }

  /** utf8ToCodepoint on the bytes left: the code point, and how many bytes it takes beyond
      the first. */
  function Utf8ToCodepoint(s: Bytes): (r: (nat, nat))
    requires s != []
    ensures r.0 < 0x200000 && r.1 < |s| && r.1 <= 3
  {
    if s[0] < 0x80 then (s[0], 0)
    else if s[0] < 0xE0 then
      if |s| < 2 then (REPLACEMENT, 0) else
      var calculated := (s[0] as int) % 32 * 64 + Six(s[1]);
      (if calculated < 0x80 then REPLACEMENT else calculated, 1)
    else if s[0] < 0xF0 then
      if |s| < 3 then (REPLACEMENT, 0) else
      var calculated := (s[0] as int) % 16 * 4096 + Six(s[1]) * 64 + Six(s[2]);
      (if 0xD800 <= calculated <= 0xDFFF || calculated < 0x800 then REPLACEMENT else calculated, 2)
    else if s[0] < 0xF8 then
      if |s| < 4 then (REPLACEMENT, 0) else
      var calculated := (s[0] as int) % 8 * 262144 + Six(s[1]) * 4096 + Six(s[2]) * 64 + Six(s[3]);
      (if calculated < 0x10000 then REPLACEMENT else calculated, 3)
    else (REPLACEMENT, 0)
  }

  /** A lower-case hexadecimal digit, as the hex2 table lists them. */
  function HexDigit(n: nat): byte
    requires n < 16
  {
    if n < 10 then 48 + n else 87 + n
  }

  /** appendHex: backslash, u and toHex16Bit. */
  function HexEscape(x: nat): Bytes {
    var hi, lo := x / 256 % 256, x % 256;
    [BACKSLASH, 117, HexDigit(hi / 16), HexDigit(hi % 16), HexDigit(lo / 16), HexDigit(lo % 16)]
  }

  /** The escape sequence of a code point. */
  function EscapeCodepoint(cp: nat): Bytes {
    if cp < 0x20 then HexEscape(cp)
    else if cp < 0x80 then [cp]
    else if cp < 0x10000 then HexEscape(cp)
    else HexEscape(0xd800 + (cp - 0x10000) / 1024 % 1024) + HexEscape(0xdc00 + (cp - 0x10000) % 1024)
  }

  /** The letter of a two-character escape, if the byte has one. */
  function ShortEscape(c: byte): Option<byte> {
    if c == QUOTE then Some(QUOTE)
    else if c == BACKSLASH then Some(BACKSLASH)
    else if c == 8 then Some(98)
    else if c == 12 then Some(102)
    else if c == LF then Some(110)
    else if c == CR then Some(114)
    else if c == TAB then Some(116)
    else None
  }

  /** One round of the escaping loop: what it appends, and the bytes it skips. */
  function EscapeOne(s: Bytes): (r: (Bytes, nat))
    requires s != []
    ensures r.1 < |s|
  {
    match ShortEscape(s[0])
    case Some(letter) => ([BACKSLASH, letter], 0)
    case None =>
      var (cp, extra) := Utf8ToCodepoint(s);
      (EscapeCodepoint(cp), extra)
  }

  function Escaped(s: Bytes): Bytes
    decreases |s|
  {
    if s == [] then [] else
    var (piece, extra) := EscapeOne(s);
    piece + Escaped(s[1 + extra..])
  }

  /** doesAnyCharRequireEscaping. */
  predicate NeedsEscaping(s: Bytes) {
    exists k :: 0 <= k < |s| && (s[k] == BACKSLASH || s[k] == QUOTE || s[k] < 0x20 || s[k] > 0x7F)
  }

  function Quoted(s: Bytes): Bytes {
    [QUOTE] + (if NeedsEscaping(s) then Escaped(s) else s) + [QUOTE]
  }

  /** valueToQuotedStringN, the loop that walks the bytes. */
  method ValueToQuotedString(value: Bytes) returns (result: Bytes)
    ensures result == Quoted(value)
  {
    if !NeedsEscaping(value) {
      return [QUOTE] + value + [QUOTE];
    }
    hide NeedsEscaping, EscapeOne, Escaped;
    NothingEscaped();
    assert value[0..] == value;
    result := [QUOTE];
    var c := 0;
    while c != |value|
      invariant 0 <= c <= |value|
      invariant result + Escaped(value[c..]) == [QUOTE] + Escaped(value)
      decreases |value| - c
    {
      var (piece, extra) := EscapeOne(value[c..]);
      EscapedStep(value, c, result);
      result := result + piece;
      c := c + 1 + extra;
    }
    assert value[c..] == [] && result + [] == result;
    result := result + [QUOTE];
  }

  lemma NothingEscaped()
    ensures Escaped([]) == []
  {
  }

  lemma EscapedStep(value: Bytes, c: nat, result: Bytes)
    requires c < |value|
    ensures var (piece, extra) := EscapeOne(value[c..]);
            result + Escaped(value[c..]) == (result + piece) + Escaped(value[c + 1 + extra..])
  {
    hide EscapeOne;
    var (piece, extra) := EscapeOne(value[c..]);
    assert value[c..][1 + extra..] == value[c + 1 + extra..];
    assert result + (piece + Escaped(value[c + 1 + extra..])) == (result + piece) + Escaped(value[c + 1 + extra..]);
  }

  /** Printable ASCII, DEL included. */
  predicate Ascii(s: Bytes) {
    forall k :: 0 <= k < |s| ==> 0x20 <= s[k] <= 0x7F
  }

  lemma CodepointIsAscii(cp: nat)
    ensures Ascii(EscapeCodepoint(cp))
  {
    var high, low := 0xd800 + (cp - 0x10000) / 1024 % 1024, 0xdc00 + (cp - 0x10000) % 1024;
    assert Ascii(HexEscape(high)) && Ascii(HexEscape(low)) && Ascii(HexEscape(cp));
  }

  lemma {:induction false} EscapedIsAscii(s: Bytes)
    ensures Ascii(Escaped(s))
    decreases |s|
  {
    if s != [] {
      CodepointIsAscii(Utf8ToCodepoint(s).0);
      EscapedIsAscii(s[1 + EscapeOne(s).1..]);
      assert Ascii(EscapeOne(s).0);
    }
  }

  /** Whatever the bytes, the quoted text is printable ASCII. */
  lemma QuotedIsAscii(s: Bytes)
    ensures Ascii(Quoted(s))
  {
    EscapedIsAscii(s);
  }

  // ----- reading

  /** readString: scans past the closing quote; a backslash hides the next byte. */
  function ScanString(t: Bytes): (r: (bool, Bytes))
    ensures |r.1| <= |t| && (r.0 ==> |r.1| < |t|)
    decreases |t|
  {
    if t == [] then (false, [])
    else if t[0] == BACKSLASH then ScanString(if |t| == 1 then [] else t[2..])
    else if t[0] == QUOTE then (true, t[1..])
    else ScanString(t[1..])
  }

  function HexValue(c: byte): Option<nat> {
    if IsDigit(c) then Some(c - 48)
    else if 97 <= c <= 102 then Some(c - 97 + 10)
    else if 65 <= c <= 70 then Some(c - 65 + 10)
    else None
  }

  /** decodeUnicodeEscapeSequence: four hexadecimal digits. */
  function DecodeHex4(t: Bytes): Option<nat> {
    if |t| < 4 then None else
    match (HexValue(t[0]), HexValue(t[1]), HexValue(t[2]), HexValue(t[3]))
    case (Some(a), Some(b), Some(c), Some(d)) => Some(((a * 16 + b) * 16 + c) * 16 + d)
    case _ => None
  }

  /** decodeUnicodeCodePoint: the code point, and how many bytes it read. */
  function DecodeCodepoint(t: Bytes): (r: Option<(nat, nat)>)
    ensures r.Some? ==> r.value.1 <= |t|
  {
    match DecodeHex4(t)
    case None => None
    case Some(u) =>
      if 0xD800 <= u <= 0xDBFF then
        if |t| < 10 || t[4] != BACKSLASH || t[5] != 117 then None else
        match DecodeHex4(t[6..])
        case None => None
        case Some(low) => Some((0x10000 + u % 1024 * 1024 + low % 1024, 10))
      else Some((u, 4))
  }

  function CodepointToUtf8(cp: nat): Bytes {
    if cp <= 0x7f then [cp]
    else if cp <= 0x7FF then [0xC0 + cp / 64 % 32, 0x80 + cp % 64]
    else if cp <= 0xFFFF then [0xE0 + cp / 4096 % 16, 0x80 + cp / 64 % 64, 0x80 + cp % 64]
    else if cp <= 0x10FFFF then
      [0xF0 + cp / 262144 % 8, 0x80 + cp / 4096 % 64, 0x80 + cp / 64 % 64, 0x80 + cp % 64]
    else []
  }

  /** The byte a two-character escape stands for. */
  function Unescape(letter: byte): Option<byte> {
    if letter == QUOTE then Some(QUOTE)
    else if letter == 47 then Some(47)
    else if letter == BACKSLASH then Some(BACKSLASH)
    else if letter == 98 then Some(8)
    else if letter == 102 then Some(12)
    else if letter == 110 then Some(LF)
    else if letter == 114 then Some(CR)
    else if letter == 116 then Some(TAB)
    else None
  }

  /** One round of the decoding loop, on the bytes left: what it appends and how far it
      moves, or None for an error. */
  function DecodeOne(body: Bytes): (r: Option<(Bytes, nat)>)
    requires body != []
    ensures r.Some? ==> 0 < r.value.1 <= |body|
  {
    if body[0] != BACKSLASH then Some(([body[0]], 1))
    else if |body| == 1 then None
    else if body[1] == 117 then
      match DecodeCodepoint(body[2..])
      case None => None
      case Some((cp, n)) => Some((CodepointToUtf8(cp), n + 2))
    else
      match Unescape(body[1])
      case None => None
      case Some(c) => Some(([c], 2))
  }

  function Prepend(head: Bytes, tail: Option<Bytes>): Option<Bytes> {
    match tail
    case None => None
    case Some(t) => Some(head + t)
  }

  /** decodeString on the bytes between the quotes. */
  function Decoded(body: Bytes): Option<Bytes>
    decreases |body|
  {
    if body == [] || body[0] == QUOTE then Some([]) else
    match DecodeOne(body)
    case None => None
    case Some((piece, n)) => Prepend(piece, Decoded(body[n..]))
  }

  lemma DecodedTurn(body: Bytes)
    ensures if body == [] || body[0] == QUOTE then Decoded(body) == Some([])
            else if DecodeOne(body) == None then Decoded(body) == None
            else Decoded(body) == Prepend(DecodeOne(body).value.0, Decoded(body[DecodeOne(body).value.1..]))
  {
    hide DecodeOne;
  }

  method DecodeString(body: Bytes) returns (decoded: Option<Bytes>)
    ensures decoded == Decoded(body)
  {
    var current := 0;
    var text: Bytes := [];
    PrependNothing(Decoded(body));
    assert body[0..] == body;
    hide Decoded, DecodeOne;
    while current != |body|
      invariant 0 <= current <= |body|
      invariant Prepend(text, Decoded(body[current..])) == Decoded(body)
      decreases |body| - current
    {
      DecodedTurn(body[current..]);
      if body[current] == QUOTE {
        assert text + [] == text;
        return Some(text);
      }
      match DecodeOne(body[current..]) {
        case None => return None;
        case Some((piece, n)) =>
          assert body[current..][n..] == body[current + n..];
          PrependTwice(text, piece, Decoded(body[current + n..]));
          text := text + piece;
          current := current + n;
      }
    }
    DecodedTurn(body[current..]);
    assert text + [] == text;
    return Some(text);
  }

  lemma PrependNothing(t: Option<Bytes>)
    ensures Prepend([], t) == t
  {
    if t.Some? { assert [] + t.value == t.value; }
  }

  lemma PrependTwice(a: Bytes, b: Bytes, t: Option<Bytes>)
    ensures Prepend(a, Prepend(b, t)) == Prepend(a + b, t)
  {
    if t.Some? { assert a + (b + t.value) == (a + b) + t.value; }
  }

  // ----- well-formed UTF-8, section 4 of RFC 3629

  predicate Tail(c: byte) {
    0x80 <= c <= 0xBF
  }

  /** The length of the UTF-8 character the bytes start with, 0 if they start with none. */
  function CharLength(s: Bytes): (n: nat)
    ensures n <= |s| && n <= 4
  {
    if |s| >= 1 && s[0] <= 0x7F then 1
    else if |s| >= 2 && 0xC2 <= s[0] <= 0xDF && Tail(s[1]) then 2
    else if |s| >= 3 && Tail(s[2]) &&
      ((s[0] == 0xE0 && 0xA0 <= s[1] <= 0xBF) || (0xE1 <= s[0] <= 0xEC && Tail(s[1])) ||
       (s[0] == 0xED && 0x80 <= s[1] <= 0x9F) || (0xEE <= s[0] <= 0xEF && Tail(s[1]))) then 3
    else if |s| >= 4 && Tail(s[2]) && Tail(s[3]) &&
      ((s[0] == 0xF0 && 0x90 <= s[1] <= 0xBF) || (0xF1 <= s[0] <= 0xF3 && Tail(s[1])) ||
       (s[0] == 0xF4 && 0x80 <= s[1] <= 0x8F)) then 4
    else 0
  }

  predicate WellFormed(s: Bytes)
    decreases |s|
  {
    s == [] || (CharLength(s) > 0 && WellFormed(s[CharLength(s)..]))
  }

  // ----- the round trip

  /** Scanning stops exactly at the closing quote of an escaped string. */
  lemma {:induction false} ScanEscaped(s: Bytes, rest: Bytes)
    ensures ScanString(Escaped(s) + ([QUOTE] + rest)) == (true, rest)
    decreases |s|
  {
    if s == [] {
      assert Escaped(s) + ([QUOTE] + rest) == [QUOTE] + rest;
    } else {
      var (piece, extra) := EscapeOne(s);
      var tail := Escaped(s[1 + extra..]) + ([QUOTE] + rest);
      ScanEscaped(s[1 + extra..], rest);
      ScanPiece(s, tail);
      assert Escaped(s) + ([QUOTE] + rest) == piece + tail;
    }
  }

  lemma ScanPiece(s: Bytes, tail: Bytes)
    requires s != []
    ensures ScanString(EscapeOne(s).0 + tail) == ScanString(tail)
  {
    var piece := EscapeOne(s).0;
    if ShortEscape(s[0]).Some? {
      assert (piece + tail)[2..] == tail;
    } else {
      var cp := Utf8ToCodepoint(s).0;
      if cp < 0x20 || 0x80 <= cp < 0x10000 {
        ScanHex(cp, tail);
      } else if cp >= 0x10000 {
        var high, low := 0xd800 + (cp - 0x10000) / 1024 % 1024, 0xdc00 + (cp - 0x10000) % 1024;
        assert piece + tail == HexEscape(high) + (HexEscape(low) + tail);
        ScanHex(high, HexEscape(low) + tail);
        ScanHex(low, tail);
      } else {
        assert piece == [s[0]] && (piece + tail)[1..] == tail;
      }
    }
  }

  lemma ScanHex(x: nat, tail: Bytes)
    ensures ScanString(HexEscape(x) + tail) == ScanString(tail)
  {
    var t := HexEscape(x) + tail;
    assert t[2..][1..] == t[3..] && t[3..][1..] == t[4..] && t[4..][1..] == t[5..] && t[5..][1..] == t[6..] &&
           t[6..] == tail;
    assert ScanString(t) == ScanString(t[2..]);
    assert ScanString(t[2..]) == ScanString(t[3..]);
    assert ScanString(t[3..]) == ScanString(t[4..]);
    assert ScanString(t[4..]) == ScanString(t[5..]);
  }

  lemma Nibbles(x: nat)
    requires x < 0x10000
    ensures var hi, lo := x / 256 % 256, x % 256; ((hi / 16 * 16 + hi % 16) * 16 + lo / 16) * 16 + lo % 16 == x
  {
  }

  lemma Hex4RoundTrip(x: nat, tail: Bytes)
    requires x < 0x10000
    ensures DecodeHex4(HexEscape(x)[2..] + tail) == Some(x)
  {
    var t := HexEscape(x)[2..] + tail;
    var hi, lo := x / 256 % 256, x % 256;
    assert t[0] == HexDigit(hi / 16) && t[1] == HexDigit(hi % 16) && t[2] == HexDigit(lo / 16) &&
           t[3] == HexDigit(lo % 16);
    HexDigitRoundTrip(hi / 16);
    HexDigitRoundTrip(hi % 16);
    HexDigitRoundTrip(lo / 16);
    HexDigitRoundTrip(lo % 16);
    Nibbles(x);
  }

  lemma HexDigitRoundTrip(n: nat)
    requires n < 16
    ensures HexValue(HexDigit(n)) == Some(n)
  {
  }

  /** The code point the reader sees: beyond U+10FFFF only the twenty bits of a surrogate
      pair survive. */
  function Fold(cp: nat): (r: nat)
    ensures r <= 0xFFFF || 0x10000 <= r <= 0x10FFFF
  {
    if cp < 0x10000 then cp else 0x10000 + (cp - 0x10000) % 0x100000
  }

  /** What the reader makes of the first character of s. */
  function RepairedChar(s: Bytes): Bytes
    requires s != []
  {
    CodepointToUtf8(Fold(Utf8ToCodepoint(s).0))
  }

  /** The string with every ill-formed part replaced, as one write and read leaves it. */
  function Repaired(s: Bytes): Bytes
    decreases |s|
  {
    if s == [] then [] else RepairedChar(s) + Repaired(s[1 + EscapeOne(s).1..])
  }

  lemma DecodeHexPiece(cp: nat, tail: Bytes)
    requires cp < 0xD800 || 0xDBFF < cp < 0x10000
    ensures Decoded(HexEscape(cp) + tail) == Prepend(CodepointToUtf8(cp), Decoded(tail))
  {
    var t := HexEscape(cp) + tail;
    assert t[2..] == HexEscape(cp)[2..] + tail;
    Hex4RoundTrip(cp, tail);
    assert DecodeOne(t) == Some((CodepointToUtf8(cp), 6));
    assert t[6..] == tail;
  }

  lemma DecodePairPiece(cp: nat, tail: Bytes)
    requires cp >= 0x10000
    ensures Decoded(EscapeCodepoint(cp) + tail) == Prepend(CodepointToUtf8(Fold(cp)), Decoded(tail))
  {
    hide Decoded, HexEscape, CodepointToUtf8;
    var high, low := 0xd800 + (cp - 0x10000) / 1024 % 1024, 0xdc00 + (cp - 0x10000) % 1024;
    PairEscape(cp);
    hide EscapeCodepoint, Fold;
    PairBits(cp - 0x10000);
    DecodePair(high, low, tail);
  }

  lemma PairEscape(cp: nat)
    requires cp >= 0x10000
    ensures var high, low := 0xd800 + (cp - 0x10000) / 1024 % 1024, 0xdc00 + (cp - 0x10000) % 1024;
            EscapeCodepoint(cp) == HexEscape(high) + HexEscape(low)
    ensures Fold(cp) == 0x10000 + (cp - 0x10000) % 0x100000
  {
    hide HexEscape;
  }

  lemma DecodePair(high: nat, low: nat, tail: Bytes)
    requires 0xd800 <= high <= 0xdbff && low < 0x10000
    ensures Decoded(HexEscape(high) + HexEscape(low) + tail)
         == Prepend(CodepointToUtf8(0x10000 + high % 1024 * 1024 + low % 1024), Decoded(tail))
  {
    var t := HexEscape(high) + HexEscape(low) + tail;
    assert t[2..] == HexEscape(high)[2..] + (HexEscape(low) + tail);
    Hex4RoundTrip(high, HexEscape(low) + tail);
    assert t[2..][6..] == HexEscape(low)[2..] + tail;
    Hex4RoundTrip(low, tail);
    assert DecodeCodepoint(t[2..]) == Some((0x10000 + high % 1024 * 1024 + low % 1024, 10));
    assert t[12..] == tail;
  }

  lemma PairBits(x: nat)
    ensures var high, low := 0xd800 + x / 1024 % 1024, 0xdc00 + x % 1024;
            0xd800 <= high <= 0xdbff && low < 0x10000 && high % 1024 * 1024 + low % 1024 == x % 0x100000
  {
    assert (0xd800 + x / 1024 % 1024) % 1024 == x / 1024 % 1024;
    assert (0xdc00 + x % 1024) % 1024 == x % 1024;
  }

  lemma DecodePiece(s: Bytes, tail: Bytes)
    requires s != []
    ensures Decoded(EscapeOne(s).0 + tail) == Prepend(RepairedChar(s), Decoded(tail))
  {
    var t := EscapeOne(s).0 + tail;
    var cp := Utf8ToCodepoint(s).0;
    if ShortEscape(s[0]).Some? {
      assert DecodeOne(t) == Some(([s[0]], 2)) && t[2..] == tail;
    } else if cp >= 0x10000 {
      DecodePairPiece(cp, tail);
    } else if 0x20 <= cp < 0x80 {
      assert t[1..] == tail;
    } else {
      DecodeHexPiece(cp, tail);
    }
  }

  /** Decoding an escaped string gives the repaired string, for every byte string. */
  lemma {:induction false} DecodeEscaped(s: Bytes)
    ensures Decoded(Escaped(s)) == Some(Repaired(s))
    decreases |s|
  {
    if s != [] {
      DecodePiece(s, Escaped(s[1 + EscapeOne(s).1..]));
      DecodeEscaped(s[1 + EscapeOne(s).1..]);
    }
  }

  /** Six-bit groups packed into a word are found again by shifting and masking. */
  lemma Unpack(q: nat, c: nat, d: nat)
    requires c < 64 && d < 64
    ensures (q * 64 + d) / 64 == q && (q * 64 + d) % 64 == d
    ensures var x := q * 4096 + c * 64 + d; x / 4096 == q && x / 64 == q * 64 + c && x / 64 % 64 == c && x % 64 == d
  {
  }

  /** A well-formed character is read and encoded back unchanged. */
  lemma WellFormedChar(s: Bytes)
    requires CharLength(s) > 0
    ensures RepairedChar(s) == s[..CharLength(s)] && EscapeOne(s).1 + 1 == CharLength(s)
  {
    var n := CharLength(s);
    if n == 2 {
      WellFormed2(s);
    } else if n == 3 {
      WellFormed3(s);
    } else if n == 4 {
      WellFormed4(s);
    }
  }

  lemma WellFormed2(s: Bytes)
    requires CharLength(s) == 2
    ensures Utf8ToCodepoint(s).1 == 1 && RepairedChar(s) == s[..2]
  {
    Unpack(s[0] as int % 32, 0, Six(s[1]));
  }

  function Packed3(s: Bytes): nat
    requires |s| >= 3
  {
    (s[0] as int) % 16 * 4096 + Six(s[1]) * 64 + Six(s[2])
  }

  lemma Codepoint3(s: Bytes)
    requires CharLength(s) == 3
    ensures Utf8ToCodepoint(s) == (Packed3(s), 2) && 0x800 <= Packed3(s) <= 0xFFFF
    ensures Tail(s[1]) && Tail(s[2]) && 0xE0 <= s[0] <= 0xEF
  {
  }

  lemma Encode3(s: Bytes)
    requires |s| >= 3 && Tail(s[1]) && Tail(s[2]) && 0xE0 <= s[0] <= 0xEF && 0x800 <= Packed3(s) <= 0xFFFF
    ensures CodepointToUtf8(Packed3(s)) == s[..3]
  {
    Unpack(s[0] as int % 16, Six(s[1]), Six(s[2]));
  }

  lemma WellFormed3(s: Bytes)
    requires CharLength(s) == 3
    ensures Utf8ToCodepoint(s).1 == 2 && RepairedChar(s) == s[..3]
  {
    Codepoint3(s);
    Encode3(s);
  }

  function Packed4(s: Bytes): nat
    requires |s| >= 4
  {
    (s[0] as int) % 8 * 262144 + Six(s[1]) * 4096 + Six(s[2]) * 64 + Six(s[3])
  }

  lemma Codepoint4(s: Bytes)
    requires CharLength(s) == 4
    ensures Utf8ToCodepoint(s) == (Packed4(s), 3) && 0x10000 <= Packed4(s) <= 0x10FFFF
    ensures Tail(s[1]) && Tail(s[2]) && Tail(s[3]) && 0xF0 <= s[0] <= 0xF4
  {
  }

  lemma Encode4(s: Bytes)
    requires |s| >= 4 && Tail(s[1]) && Tail(s[2]) && Tail(s[3]) && 0xF0 <= s[0] <= 0xF4 &&
             0x10000 <= Packed4(s) <= 0x10FFFF
    ensures CodepointToUtf8(Packed4(s)) == s[..4]
  {
    var lead: nat := s[0] as int % 8;
    Unpack(lead * 64 + Six(s[1]), Six(s[2]), Six(s[3]));
    Unpack(lead, 0, Six(s[1]));
    assert Packed4(s) / 262144 == lead && Packed4(s) / 4096 % 64 == Six(s[1]);
  }

  lemma WellFormed4(s: Bytes)
    requires CharLength(s) == 4
    ensures Utf8ToCodepoint(s).1 == 3 && RepairedChar(s) == s[..4]
  {
    hide Packed4, CodepointToUtf8, WellFormed;
    Codepoint4(s);
    Encode4(s);
  }

  /** What codePointToUTF8 writes for a scalar value is one well-formed character. */
  lemma EncodedChar(cp: nat, rest: Bytes)
    requires cp < 0xD800 || 0xDFFF < cp <= 0x10FFFF
    ensures CharLength(CodepointToUtf8(cp) + rest) == |CodepointToUtf8(cp)| > 0
  {
    hide CharLength;
    var t := CodepointToUtf8(cp);
    if cp > 0xFFFF {
      Lead4(cp);
      CharLength4(t + rest);
    } else if cp > 0x7FF {
      Lead3(cp);
      CharLength3(t + rest);
    } else {
      CharLength12(t + rest, |t|);
    }
  }

  lemma Lead4(cp: nat)
    requires 0xFFFF < cp <= 0x10FFFF
    ensures cp / 262144 <= 4 && (cp / 262144 == 4 ==> cp / 4096 % 64 < 16) &&
            (cp / 262144 == 0 ==> cp / 4096 % 64 >= 16)
  {
  }

  lemma Lead3(cp: nat)
    requires 0x7FF < cp <= 0xFFFF && (cp < 0xD800 || 0xDFFF < cp)
    ensures (cp / 4096 == 0 ==> cp / 64 % 64 >= 32) && (cp / 4096 == 13 ==> cp / 64 % 64 < 32)
  {
  }

  lemma CharLength4(s: Bytes)
    requires |s| >= 4 && 0xF0 <= s[0] <= 0xF4 && Tail(s[1]) && Tail(s[2]) && Tail(s[3])
    requires (s[0] == 0xF0 ==> s[1] >= 0x90) && (s[0] == 0xF4 ==> s[1] <= 0x8F)
    ensures CharLength(s) == 4
  {
  }

  lemma CharLength3(s: Bytes)
    requires |s| >= 3 && 0xE0 <= s[0] <= 0xEF && Tail(s[1]) && Tail(s[2])
    requires (s[0] == 0xE0 ==> s[1] >= 0xA0) && (s[0] == 0xED ==> s[1] <= 0x9F)
    ensures CharLength(s) == 3
  {
  }

  lemma CharLength12(s: Bytes, n: nat)
    requires |s| >= n && ((n == 1 && s[0] <= 0x7F) || (n == 2 && 0xC2 <= s[0] <= 0xDF && Tail(s[1])))
    ensures CharLength(s) == n
  {
  }

  lemma {:induction false} RepairedIsWellFormed(s: Bytes)
    ensures WellFormed(Repaired(s))
    decreases |s|
  {
    if s != [] {
      var rest := Repaired(s[1 + EscapeOne(s).1..]);
      RepairedIsWellFormed(s[1 + EscapeOne(s).1..]);
      EncodedChar(Fold(Utf8ToCodepoint(s).0), rest);
      assert Repaired(s)[|RepairedChar(s)|..] == rest;
    }
  }

  lemma {:induction false} WellFormedIsFixed(s: Bytes)
    requires WellFormed(s)
    ensures Repaired(s) == s
    decreases |s|
  {
    if s != [] {
      WellFormedChar(s);
      WellFormedIsFixed(s[CharLength(s)..]);
    }
  }

  lemma {:induction false} DecodePlain(s: Bytes)
    requires !NeedsEscaping(s)
    ensures Decoded(s) == Some(s) && WellFormed(s)
    decreases |s|
  {
    if s != [] {
      assert forall k :: 0 <= k < |s[1..]| ==> s[1..][k] == s[k + 1];
      DecodePlain(s[1..]);
      assert s == [s[0]] + s[1..];
    }
  }

  lemma {:induction false} ScanPlain(s: Bytes, rest: Bytes)
    requires forall k :: 0 <= k < |s| ==> s[k] != BACKSLASH && s[k] != QUOTE
    ensures ScanString(s + ([QUOTE] + rest)) == (true, rest)
    decreases |s|
  {
    if s == [] {
      assert s + ([QUOTE] + rest) == [QUOTE] + rest;
    } else {
      ScanPlain(s[1..], rest);
      assert (s + ([QUOTE] + rest))[1..] == s[1..] + ([QUOTE] + rest);
    }
  }

  /** The bytes between the quotes of a string token. */
  function Body(quoted: Bytes): Bytes
    requires |quoted| >= 2
  {
    quoted[1..|quoted| - 1]
  }

  /** readString consumes exactly the quoted text, whatever follows it and whatever the
      bytes were. */
  lemma ScanQuoted(s: Bytes, rest: Bytes)
    ensures Quoted(s) != [] && ScanString(Quoted(s)[1..] + rest) == (true, rest)
  {
    hide Escaped, ScanString;
    if NeedsEscaping(s) {
      ScanEscaped(s, rest);
      assert Quoted(s)[1..] + rest == Escaped(s) + ([QUOTE] + rest);
    } else {
      ScanPlain(s, rest);
      assert Quoted(s)[1..] + rest == s + ([QUOTE] + rest);
    }
  }

  /** Writing and reading a string returns it unchanged exactly when it is well-formed
      UTF-8, surrogate pairs included; any other string comes back repaired. */
  lemma StringRoundTrip(s: Bytes)
    ensures |Quoted(s)| >= 2
    ensures Decoded(Body(Quoted(s))) == Some(s) <==> WellFormed(s)
    ensures Decoded(Body(Quoted(s))) == Some(Repaired(s)) && WellFormed(Repaired(s))
  {
    RepairedIsWellFormed(s);
    if WellFormed(s) { WellFormedIsFixed(s); }
    if NeedsEscaping(s) {
      assert Body(Quoted(s)) == Escaped(s);
      DecodeEscaped(s);
    } else {
      assert Body(Quoted(s)) == s;
      DecodePlain(s);
      WellFormedIsFixed(s);
    }
  }
}
