/** String literals, section 7 of RFC 8259: what each stands for, stated on the characters, and
    that the reader takes exactly these and gives exactly that. */
module JsonLiterals {
  import opened Bytes
  import opened JsonValue
  import opened JsonStrings
  import opened JsonGrammar

  // ----- the characters

  /** The hexadecimal digits in order, in two halves. */
  const LOW_DIGITS: string := "01234567"
  const HIGH_DIGITS: string := "89abcdef"

  function Lower(c: byte): byte {
    if 65 <= c <= 90 then c + 32 else c
  }

  /** The digit, in either case, is the one at place `v` of 0123456789abcdef. */
  ghost predicate IsHex(c: byte, v: nat) {
    |LOW_DIGITS| == |HIGH_DIGITS| == 8 &&
    if v < 8 then Lower(c) == LOW_DIGITS[v] as int else v < 16 && Lower(c) == HIGH_DIGITS[v - 8] as int
  }

  /** Four digits that write the code unit. */
  ghost predicate Writes(digits: Bytes, unit: nat) {
    unit < 0x10000 && |digits| == 4 &&
    IsHex(digits[0], unit / 4096) && IsHex(digits[1], unit / 256 % 16) && IsHex(digits[2], unit / 16 % 16) &&
    IsHex(digits[3], unit % 16)
  }

  /** The six bits of a byte 10xxxxxx. */
  ghost function Low(c: byte): int {
    c as int - 0x80
  }

  /** The bits a UTF-8 character carries, section 3 of RFC 3629. */
  ghost function Carried(ch: Bytes): int
    requires 1 <= |ch| <= 4
  {
    if |ch| == 1 then ch[0]
    else if |ch| == 2 then (ch[0] as int - 0xC0) * 64 + Low(ch[1])
    else if |ch| == 3 then (ch[0] as int - 0xE0) * 4096 + Low(ch[1]) * 64 + Low(ch[2])
    else (ch[0] as int - 0xF0) * 262144 + Low(ch[1]) * 4096 + Low(ch[2]) * 64 + Low(ch[3])
  }

  /** The bytes are one well-formed UTF-8 character, and this is its code point. */
  ghost predicate IsCharacter(ch: Bytes, point: nat) {
    CharLength(ch) == |ch| > 0 && Carried(ch) == point
  }

  /** A lone low surrogate has no well-formed bytes; it becomes the three that would carry it. */
  ghost predicate IsLoneLow(ch: Bytes, unit: nat) {
    0xDC00 <= unit <= 0xDFFF && |ch| == 3 && ch[0] == 0xED && Tail(ch[1]) && Tail(ch[2]) && Carried(ch) == unit
  }

  lemma {:induction false} CharacterIs(ch: Bytes, point: nat)
    requires IsCharacter(ch, point)
    ensures CodepointToUtf8(point) == ch
  {
    hide CharLength, CodepointToUtf8;
    WellFormedChar(ch);
    assert ch[..|ch|] == ch;
    PointRead(ch);
  }

  lemma PointRead(ch: Bytes)
    requires CharLength(ch) == |ch| > 0
    ensures Fold(Utf8ToCodepoint(ch).0) == Carried(ch)
  {
    if |ch| == 2 {
      assert ch[0] as int % 32 == ch[0] as int - 0xC0 && Six(ch[1]) == Low(ch[1]);
    } else if |ch| == 3 {
      Codepoint3(ch);
      assert ch[0] as int % 16 == ch[0] as int - 0xE0 && Six(ch[1]) == Low(ch[1]) && Six(ch[2]) == Low(ch[2]);
    } else if |ch| == 4 {
      Codepoint4(ch);
      assert ch[0] as int % 8 == ch[0] as int - 0xF0 && Six(ch[1]) == Low(ch[1]) && Six(ch[2]) == Low(ch[2]) &&
             Six(ch[3]) == Low(ch[3]);
    }
  }

  /** Every scalar value has one, and codePointToUTF8 writes it. */
  lemma HasCharacter(point: nat)
    requires point < 0xD800 || 0xDFFF < point <= 0x10FFFF
    ensures IsCharacter(CodepointToUtf8(point), point)
  {
    hide CharLength;
    EncodedChar(point, []);
    assert CodepointToUtf8(point) + [] == CodepointToUtf8(point);
    Split(point);
    Split(point / 64);
    Split(point / 4096);
    hide CodepointToUtf8;
    Encoding(point);
  }

  lemma Split(n: nat)
    ensures n == n / 64 * 64 + n % 64 && n / 64 / 64 == n / 4096 && n / 4096 / 64 == n / 262144
  {
  }

  /** The bytes codePointToUTF8 writes carry the code point. */
  lemma Encoding(point: nat)
    requires point <= 0x10FFFF
    ensures 1 <= |CodepointToUtf8(point)| <= 4 && Carried(CodepointToUtf8(point)) == point
  {
    Split(point);
    Split(point / 64);
    Split(point / 4096);
    if point > 0xFFFF {
      Carried4(point, CodepointToUtf8(point));
    } else if point > 0x7FF {
      Carried3(point, CodepointToUtf8(point));
    }
  }

  lemma Carried4(point: nat, ch: Bytes)
    requires 0xFFFF < point <= 0x10FFFF && ch == CodepointToUtf8(point)
    ensures Carried(ch) == point
  {
    assert ch == [0xF0 + point / 262144 % 8, 0x80 + point / 4096 % 64, 0x80 + point / 64 % 64, 0x80 + point % 64];
    assert point / 262144 < 8;
    Regroup4(point);
  }

  lemma Regroup4(n: nat)
    ensures n == n / 262144 * 262144 + n / 4096 % 64 * 4096 + n / 64 % 64 * 64 + n % 64
  {
    Split(n);
    Split(n / 64);
    Split(n / 4096);
  }

  lemma Carried3(point: nat, ch: Bytes)
    requires 0x7FF < point <= 0xFFFF && ch == CodepointToUtf8(point)
    ensures Carried(ch) == point
  {
    assert ch == [0xE0 + point / 4096 % 16, 0x80 + point / 64 % 64, 0x80 + point % 64];
    assert point / 4096 < 16;
    Split(point);
    Split(point / 64);
  }

  lemma LoneLowIs(ch: Bytes, unit: nat)
    requires IsLoneLow(ch, unit)
    ensures CodepointToUtf8(unit) == ch
  {
    Unpack(13, Low(ch[1]), Low(ch[2]));
  }

  lemma HasLoneLow(unit: nat)
    requires 0xDC00 <= unit <= 0xDFFF
    ensures IsLoneLow(CodepointToUtf8(unit), unit)
  {
  }

  lemma HexIs(c: byte, v: nat)
    ensures IsHex(c, v) <==> HexValue(c) == Some(v)
  {
    LowDigit(v, LOW_DIGITS);
    HighDigit(v, HIGH_DIGITS);
  }

  lemma LowDigit(v: nat, digits: string)
    requires digits == LOW_DIGITS
    ensures |digits| == 8 && (v < 8 ==> digits[v] as int == 48 + v)
  {
    assert v < 8 ==> v == 0 || v == 1 || v == 2 || v == 3 || v == 4 || v == 5 || v == 6 || v == 7;
  }

  lemma HighDigit(v: nat, digits: string)
    requires digits == HIGH_DIGITS
    ensures |digits| == 8 && (8 <= v < 16 ==> digits[v - 8] as int == if v < 10 then 48 + v else 87 + v)
  {
    assert 8 <= v < 16 ==> v == 8 || v == 9 || v == 10 || v == 11 || v == 12 || v == 13 || v == 14 || v == 15;
  }

  lemma WritesIs(digits: Bytes, unit: nat, tail: Bytes)
    requires |digits| == 4
    ensures Writes(digits, unit) <==> DecodeHex4(digits + tail) == Some(unit)
  {
    hide IsHex, HexValue;
    var t := digits + tail;
    assert t[0] == digits[0] && t[1] == digits[1] && t[2] == digits[2] && t[3] == digits[3];
    if Writes(digits, unit) {
      HexIs(t[0], unit / 4096);
      HexIs(t[1], unit / 256 % 16);
      HexIs(t[2], unit / 16 % 16);
      HexIs(t[3], unit % 16);
      Sixteens(unit);
    }
    if DecodeHex4(t) == Some(unit) {
      var a, b, c, d := HexValue(t[0]).value, HexValue(t[1]).value, HexValue(t[2]).value, HexValue(t[3]).value;
      HexIs(t[0], a);
      HexIs(t[1], b);
      HexIs(t[2], c);
      HexIs(t[3], d);
      HexSmall(t[0]);
      HexSmall(t[1]);
      HexSmall(t[2]);
      HexSmall(t[3]);
      Nibble(a, b, c, d);
    }
  }

  lemma Sixteens(n: nat)
    ensures ((n / 4096 * 16 + n / 256 % 16) * 16 + n / 16 % 16) * 16 + n % 16 == n
  {
    assert n / 16 / 16 == n / 256 && n / 256 / 16 == n / 4096;
  }

  lemma Nibble(a: nat, b: nat, c: nat, d: nat)
    requires a < 16 && b < 16 && c < 16 && d < 16
    ensures var n := ((a * 16 + b) * 16 + c) * 16 + d;
      n < 0x10000 && n / 4096 == a && n / 256 % 16 == b && n / 16 % 16 == c && n % 16 == d
  {
    var n := ((a * 16 + b) * 16 + c) * 16 + d;
    assert n / 16 == (a * 16 + b) * 16 + c;
    assert n / 256 == a * 16 + b;
  }

  lemma HexSmall(c: byte)
    ensures HexValue(c).Some? ==> HexValue(c).value < 16
  {
  }

  // ----- literals

  /** The letters of the two-character escapes, and the characters they stand for. */
  const LETTERS: Bytes := [QUOTE, BACKSLASH, 47, 98, 102, 110, 114, 116]
  const MEANT: Bytes := [QUOTE, BACKSLASH, 47, 8, 12, 10, 13, 9]

  /** A byte that stands for itself; a two-character escape, by its place in the list; a code
      unit; a surrogate pair. `ch` is what the last two stand for. */
  datatype Item =
    | Plain(c: byte)
    | Short(place: nat)
    | Unit(digits: Bytes, ch: Bytes)
    | Pair(high: Bytes, low: Bytes, ch: Bytes)

  /** The code point of a pair. */
  ghost function Joined(high: nat, low: nat): nat
    requires high >= 0xD800 && low >= 0xDC00
  {
    0x10000 + (high - 0xD800) * 0x400 + (low - 0xDC00)
  }

  /** After a high surrogate the reader takes any code unit, for the low surrogate that has the
      same ten last bits. */
  ghost predicate Pairs(item: Item, high: nat, low: nat, taken: nat)
    requires item.Pair?
  {
    && Writes(item.high, high) && Writes(item.low, taken)
    && 0xD800 <= high <= 0xDBFF && 0xDC00 <= low <= 0xDFFF && taken % 0x400 == low % 0x400
    && IsCharacter(item.ch, Joined(high, low))
  }

  ghost predicate Valid(item: Item) {
    match item
    case Plain(c) => c != QUOTE && c != BACKSLASH
    case Short(k) => k < 8
    case Unit(digits, ch) => exists unit :: Writes(digits, unit) && (IsCharacter(ch, unit) || IsLoneLow(ch, unit))
    case Pair(_, _, _) => exists high, low, taken :: Pairs(item, high, low, taken)
  }

  ghost function Text(item: Item): Bytes
    requires Valid(item)
  {
    match item
    case Plain(c) => [c]
    case Short(k) => [BACKSLASH, LETTERS[k]]
    case Unit(digits, _) => [BACKSLASH, 117] + digits
    case Pair(high, low, _) => [BACKSLASH, 117] + high + [BACKSLASH, 117] + low
  }

  ghost function Meaning(item: Item): Bytes
    requires Valid(item)
  {
    match item
    case Plain(c) => [c]
    case Short(k) => [MEANT[k]]
    case Unit(_, ch) => ch
    case Pair(_, _, ch) => ch
  }

  ghost predicate AllValid(items: seq<Item>) {
    forall i :: 0 <= i < |items| ==> Valid(items[i])
  }

  ghost function TextOf(items: seq<Item>): Bytes
    requires AllValid(items)
  {
    if items == [] then [] else Text(items[0]) + TextOf(items[1..])
  }

  ghost function MeaningOf(items: seq<Item>): Bytes
    requires AllValid(items)
  {
    if items == [] then [] else Meaning(items[0]) + MeaningOf(items[1..])
  }

  /** The text between the quotes is a list of items that stand for `s`. */
  ghost predicate Literal(body: Bytes, s: Bytes) {
    exists items :: AllValid(items) && TextOf(items) == body && MeaningOf(items) == s
  }

  // ----- the reader takes them

  lemma HexIsPlain(c: byte, v: nat)
    requires IsHex(c, v)
    ensures c != QUOTE && c != BACKSLASH
  {
    LowDigit(v, LOW_DIGITS);
    HighDigit(v, HIGH_DIGITS);
  }

  lemma UnitIsPlain(digits: Bytes, unit: nat)
    requires Writes(digits, unit)
    ensures |digits| == 4 && forall k :: 0 <= k < 4 ==> digits[k] != QUOTE && digits[k] != BACKSLASH
  {
    HexIsPlain(digits[0], unit / 4096);
    HexIsPlain(digits[1], unit / 256 % 16);
    HexIsPlain(digits[2], unit / 16 % 16);
    HexIsPlain(digits[3], unit % 16);
  }

  lemma UnitScans(digits: Bytes, unit: nat, tail: Bytes)
    requires Writes(digits, unit)
    ensures ScanString([BACKSLASH, 117] + digits + tail) == ScanString(tail)
  {
    UnitIsPlain(digits, unit);
    hide Writes;
    var t := [BACKSLASH, 117] + digits + tail;
    assert t[2..] == digits + tail;
    PlainScans(digits, tail);
  }

  lemma {:induction false} PlainScans(plain: Bytes, tail: Bytes)
    requires forall k :: 0 <= k < |plain| ==> plain[k] != QUOTE && plain[k] != BACKSLASH
    ensures ScanString(plain + tail) == ScanString(tail)
  {
    if plain == [] {
      assert plain + tail == tail;
    } else {
      assert (plain + tail)[1..] == plain[1..] + tail;
      PlainScans(plain[1..], tail);
    }
  }

  lemma ShortScans(letter: byte, tail: Bytes)
    ensures ScanString([BACKSLASH, letter] + tail) == ScanString(tail)
  {
    assert ([BACKSLASH, letter] + tail)[2..] == tail;
  }

  lemma {:induction false} ItemScans(item: Item, tail: Bytes)
    requires Valid(item)
    ensures ScanString(Text(item) + tail) == ScanString(tail)
  {
    hide IsCharacter, IsLoneLow, Writes, ScanString;
    match item
    case Plain(c) => PlainScans([c], tail);
    case Short(k) => ShortScans(LETTERS[k], tail);
    case Unit(digits, ch) =>
      var unit :| Writes(digits, unit) && (IsCharacter(ch, unit) || IsLoneLow(ch, unit));
      UnitScans(digits, unit, tail);
    case Pair(h, l, _) =>
      var high, low, taken :| Pairs(item, high, low, taken);
      PairScans(h, l, high, taken, tail);
  }

  lemma PairScans(h: Bytes, l: Bytes, high: nat, taken: nat, tail: Bytes)
    requires Writes(h, high) && Writes(l, taken)
    ensures ScanString([BACKSLASH, 117] + h + [BACKSLASH, 117] + l + tail) == ScanString(tail)
  {
    hide ScanString, Writes;
    UnitScans(h, high, [BACKSLASH, 117] + l + tail);
    UnitScans(l, taken, tail);
    assert [BACKSLASH, 117] + h + [BACKSLASH, 117] + l + tail == [BACKSLASH, 117] + h + ([BACKSLASH, 117] + l + tail);
  }

  lemma {:induction false} LiteralScans(items: seq<Item>, rest: Bytes)
    requires AllValid(items)
    ensures ScanString(TextOf(items) + ([QUOTE] + rest)) == (true, rest)
  {
    hide Valid, Text;
    if items == [] {
      assert TextOf(items) + ([QUOTE] + rest) == [QUOTE] + rest && ([QUOTE] + rest)[1..] == rest;
    } else {
      LiteralScans(items[1..], rest);
      ItemScans(items[0], TextOf(items[1..]) + ([QUOTE] + rest));
      assert TextOf(items) + ([QUOTE] + rest) == Text(items[0]) + (TextOf(items[1..]) + ([QUOTE] + rest));
    }
  }

  lemma ShortIs(k: nat)
    requires k < 8
    ensures LETTERS[k] != 117 && Unescape(LETTERS[k]) == Some(MEANT[k])
  {
    assert k == 0 || k == 1 || k == 2 || k == 3 || k == 4 || k == 5 || k == 6 || k == 7;
  }

  lemma UnitDecodes(digits: Bytes, unit: nat, ch: Bytes, tail: Bytes)
    requires Writes(digits, unit) && (IsCharacter(ch, unit) || IsLoneLow(ch, unit))
    ensures DecodeOne([BACKSLASH, 117] + digits + tail) == Some((ch, 6))
  {
    hide Writes, CodepointToUtf8, DecodeHex4, IsCharacter, IsLoneLow, Unescape;
    assert |digits| == 4 by { UnitIsPlain(digits, unit); }
    WritesIs(digits, unit, tail);
    NotHigh(ch, unit);
    assert ([BACKSLASH, 117] + digits + tail)[2..] == digits + tail;
  }

  lemma NotHigh(ch: Bytes, unit: nat)
    requires IsCharacter(ch, unit) || IsLoneLow(ch, unit)
    ensures !(0xD800 <= unit <= 0xDBFF) && CodepointToUtf8(unit) == ch
  {
    hide CodepointToUtf8;
    if IsCharacter(ch, unit) {
      CharacterIs(ch, unit);
      NoSurrogate(ch);
    } else {
      LoneLowIs(ch, unit);
    }
  }

  lemma NoSurrogate(ch: Bytes)
    requires CharLength(ch) == |ch| > 0
    ensures !(0xD800 <= Carried(ch) <= 0xDFFF)
  {
  }

  lemma PairDecodes(item: Item, high: nat, low: nat, taken: nat, tail: Bytes)
    requires item.Pair? && Pairs(item, high, low, taken)
    ensures DecodeOne([BACKSLASH, 117] + item.high + [BACKSLASH, 117] + item.low + tail) == Some((item.ch, 12))
  {
    hide Writes, CodepointToUtf8, DecodeHex4, IsCharacter;
    var more := [BACKSLASH, 117] + item.low + tail;
    assert |item.high| == 4 by { UnitIsPlain(item.high, high); }
    assert |item.low| == 4 by { UnitIsPlain(item.low, taken); }
    WritesIs(item.high, high, more);
    WritesIs(item.low, taken, tail);
    CharacterIs(item.ch, Joined(high, low));
    TenBits(high, low);
    assert (item.high + more)[6..] == item.low + tail;
    PairCodepoint(item.high + more, high, taken);
    PairOne([BACKSLASH, 117] + item.high + [BACKSLASH, 117] + item.low + tail, item.high + more);
  }

  lemma PairCodepoint(t: Bytes, high: nat, taken: nat)
    requires DecodeHex4(t) == Some(high) && 0xD800 <= high <= 0xDBFF
    requires |t| >= 10 && t[4] == BACKSLASH && t[5] == 117 && DecodeHex4(t[6..]) == Some(taken)
    ensures DecodeCodepoint(t) == Some((0x10000 + high % 1024 * 1024 + taken % 1024, 10))
  {
    hide DecodeHex4;
  }

  lemma PairOne(t: Bytes, rest: Bytes)
    requires t == [BACKSLASH, 117] + rest && DecodeCodepoint(rest).Some?
    ensures DecodeOne(t) == Some((CodepointToUtf8(DecodeCodepoint(rest).value.0), DecodeCodepoint(rest).value.1 + 2))
  {
    hide DecodeCodepoint, CodepointToUtf8;
    assert t[2..] == rest;
  }

  lemma TenBits(high: nat, low: nat)
    requires 0xD800 <= high <= 0xDBFF && 0xDC00 <= low <= 0xDFFF
    ensures Joined(high, low) == 0x10000 + high % 1024 * 1024 + low % 1024
  {
  }

  lemma {:induction false} ItemDecodes(item: Item, tail: Bytes)
    requires Valid(item)
    ensures Decoded(Text(item) + tail) == Prepend(Meaning(item), Decoded(tail))
  {
    hide IsCharacter, IsLoneLow, Writes, DecodeCodepoint, CodepointToUtf8;
    var t := Text(item) + tail;
    assert t[|Text(item)|..] == tail;
    match item
    case Plain(c) => assert DecodeOne(t) == Some(([c], 1));
    case Short(k) => ShortIs(k);
    case Unit(digits, ch) =>
      var unit :| Writes(digits, unit) && (IsCharacter(ch, unit) || IsLoneLow(ch, unit));
      UnitIsPlain(digits, unit);
      UnitDecodes(digits, unit, ch, tail);
    case Pair(h, l, ch) =>
      var high, low, taken :| Pairs(item, high, low, taken);
      UnitIsPlain(h, high);
      UnitIsPlain(l, taken);
      PairDecodes(item, high, low, taken, tail);
  }

  /** Every literal decodes to what its items stand for, one after another. */
  lemma {:induction false} LiteralDecodes(items: seq<Item>)
    requires AllValid(items)
    ensures Decoded(TextOf(items)) == Some(MeaningOf(items))
  {
    hide Valid, Text, Meaning;
    if items != [] {
      LiteralDecodes(items[1..]);
      ItemDecodes(items[0], TextOf(items[1..]));
    }
  }

  // ----- and nothing else

  /** No quote but hidden ones: what stands between the quotes of a token. */
  predicate Unbroken(body: Bytes) {
    if body == [] then true
    else if body[0] == BACKSLASH then |body| > 1 && Unbroken(body[2..])
    else body[0] != QUOTE && Unbroken(body[1..])
  }

  lemma {:induction false} TokenIsUnbroken(t: Bytes)
    requires ScanString(t).0
    ensures Remains(ScanString(t).1, t) && |ScanString(t).1| < |t|
    ensures Unbroken(t[..|t| - |ScanString(t).1| - 1])
    decreases |t|
  {
    var rest := ScanString(t).1;
    ScanIsSuffix(t);
    var body := t[..|t| - |rest| - 1];
    if t[0] == BACKSLASH {
      TokenIsUnbroken(t[2..]);
      assert body[2..] == t[2..][..|t[2..]| - |rest| - 1];
    } else if t[0] != QUOTE {
      TokenIsUnbroken(t[1..]);
      assert body[1..] == t[1..][..|t[1..]| - |rest| - 1];
    }
  }

  lemma {:induction false} UnbrokenAfter(plain: Bytes, tail: Bytes)
    requires Unbroken(plain + tail) && forall k :: 0 <= k < |plain| ==> plain[k] != QUOTE && plain[k] != BACKSLASH
    ensures Unbroken(tail)
  {
    if plain == [] {
      assert plain + tail == tail;
    } else {
      assert (plain + tail)[1..] == plain[1..] + tail;
      UnbrokenAfter(plain[1..], tail);
    }
  }

  lemma UnbrokenUnit(body: Bytes, unit: nat)
    requires Unbroken(body) && |body| >= 6 && body[0] == BACKSLASH && Writes(body[2..6], unit)
    ensures Unbroken(body[6..])
  {
    UnitIsPlain(body[2..6], unit);
    assert body[2..] == body[2..6] + body[6..];
    UnbrokenAfter(body[2..6], body[6..]);
  }

  /** A code unit that is no high surrogate, recognised. */
  lemma UnitTaken(body: Bytes) returns (item: Item)
    requires |body| >= 6 && body[0] == BACKSLASH && body[1] == 117 && Unbroken(body)
    requires DecodeHex4(body[2..]).Some? && !(0xD800 <= DecodeHex4(body[2..]).value <= 0xDBFF)
    ensures Valid(item) && Text(item) == body[..6] && Unbroken(body[6..])
    ensures Meaning(item) == CodepointToUtf8(DecodeHex4(body[2..]).value)
  {
    var digits, unit := body[2..6], DecodeHex4(body[2..]).value;
    assert body[2..] == digits + body[6..] && body[..6] == [BACKSLASH, 117] + digits;
    WritesIs(digits, unit, body[6..]);
    UnbrokenUnit(body, unit);
    assert unit < 0x10000;
    hide Writes, CodepointToUtf8, IsCharacter, IsLoneLow, DecodeHex4;
    if 0xDC00 <= unit <= 0xDFFF { HasLoneLow(unit); } else { HasCharacter(unit); }
    item := Unit(digits, CodepointToUtf8(unit));
  }

  lemma PairTaken(body: Bytes) returns (item: Item)
    requires |body| >= 12 && body[0] == BACKSLASH && body[1] == 117 && body[6] == BACKSLASH && body[7] == 117
    requires DecodeHex4(body[2..]).Some? && 0xD800 <= DecodeHex4(body[2..]).value <= 0xDBFF
    requires DecodeHex4(body[8..]).Some? && Unbroken(body)
    ensures Valid(item) && Text(item) == body[..12] && Unbroken(body[12..])
    ensures Meaning(item) == CodepointToUtf8(0x10000 + DecodeHex4(body[2..]).value % 1024 * 1024 +
                                             DecodeHex4(body[8..]).value % 1024)
  {
    hide *;
    var high, taken := DecodeHex4(body[2..]).value, DecodeHex4(body[8..]).value;
    UnitAt(body, high);
    assert body[6..][0] == BACKSLASH && body[6..][2..] == body[8..];
    UnitAt(body[6..], taken);
    assert body[6..][2..6] == body[8..12] && body[6..][6..] == body[12..];
    item := PairFor(body[2..6], body[8..12], high, taken);
    assert body[..12] == [BACKSLASH, 117] + body[2..6] + [BACKSLASH, 117] + body[8..12];
  }

  /** The four digits of a code unit, and what stands after them. */
  lemma UnitAt(body: Bytes, unit: nat)
    requires Unbroken(body) && |body| >= 6 && body[0] == BACKSLASH && DecodeHex4(body[2..]) == Some(unit)
    ensures Writes(body[2..6], unit) && Unbroken(body[6..])
  {
    hide *;
    assert body[2..] == body[2..6] + body[6..];
    WritesIs(body[2..6], unit, body[6..]);
    UnbrokenUnit(body, unit);
  }

  lemma PairFor(h: Bytes, l: Bytes, high: nat, taken: nat) returns (item: Item)
    requires Writes(h, high) && Writes(l, taken) && 0xD800 <= high <= 0xDBFF
    ensures Valid(item) && Text(item) == [BACKSLASH, 117] + h + [BACKSLASH, 117] + l
    ensures Meaning(item) == CodepointToUtf8(0x10000 + high % 1024 * 1024 + taken % 1024)
  {
    hide Writes, CodepointToUtf8, IsCharacter;
    var low := 0xDC00 + taken % 1024;
    LowFor(taken);
    TenBits(high, low);
    HasCharacter(Joined(high, low));
    item := Pair(h, l, CodepointToUtf8(Joined(high, low)));
    assert Pairs(item, high, low, taken);
  }

  lemma LowFor(taken: nat)
    ensures var low := 0xDC00 + taken % 1024; 0xDC00 <= low <= 0xDFFF && low % 1024 == taken % 1024
  {
  }

  lemma ShortTaken(letter: byte) returns (k: nat)
    requires Unescape(letter).Some?
    ensures k < 8 && LETTERS[k] == letter && Unescape(letter) == Some(MEANT[k])
  {
    k := if letter == QUOTE then 0 else if letter == BACKSLASH then 1 else if letter == 47 then 2
         else if letter == 98 then 3 else if letter == 102 then 4 else if letter == 110 then 5
         else if letter == 114 then 6 else 7;
  }

  /** What one round of the loop takes is an item. */
  lemma {:induction false} ItemTaken(body: Bytes) returns (item: Item)
    requires body != [] && Unbroken(body) && DecodeOne(body).Some?
    ensures Valid(item) && Text(item) == body[..DecodeOne(body).value.1] && Meaning(item) == DecodeOne(body).value.0
    ensures Unbroken(body[DecodeOne(body).value.1..])
  {
    hide CodepointToUtf8, Writes, IsCharacter, IsLoneLow, DecodeHex4;
    if body[0] != BACKSLASH {
      item := Plain(body[0]);
    } else if body[1] != 117 {
      var k := ShortTaken(body[1]);
      item := Short(k);
    } else {
      assert |body| >= 6 by { HexLength(body[2..]); }
      if 0xD800 <= DecodeHex4(body[2..]).value <= 0xDBFF {
        assert body[2..][6..] == body[8..];
        item := PairTaken(body);
      } else {
        item := UnitTaken(body);
      }
    }
  }

  lemma HexLength(t: Bytes)
    ensures DecodeHex4(t).Some? ==> |t| >= 4
  {
  }

  lemma {:induction false} DecodedIsLiteral(body: Bytes) returns (items: seq<Item>)
    requires Unbroken(body) && Decoded(body).Some?
    ensures AllValid(items) && TextOf(items) == body && MeaningOf(items) == Decoded(body).value
    decreases |body|
  {
    hide Valid, Text, Meaning, DecodeOne;
    if body == [] {
      items := [];
    } else {
      var n := DecodeOne(body).value.1;
      var item := ItemTaken(body);
      var more := DecodedIsLiteral(body[n..]);
      items := [item] + more;
      assert body == body[..n] + body[n..] && items[1..] == more;
    }
  }

  /** Exactly the literals are read: the text between the quotes of a string token is a list of
      items that stand for `s` if and only if it decodes to `s`; any other token is an error. */
  lemma TokenIsLiteral(t: Bytes, s: Bytes)
    requires ReadToken(t).kind == StringToken
    ensures Decoded(Body(ReadToken(t).text)) == Some(s) <==> Literal(Body(ReadToken(t).text), s)
  {
    hide SkipSpaces, Decoded, Unbroken, ScanString, AllValid;
    var u, k := SkipSpaces(t), ReadToken(t);
    assert u != [] && u[0] == QUOTE && ScanString(u[1..]).0 && k.rest == ScanString(u[1..]).1 by { QuoteStarts(t); }
    TokenIsUnbroken(u[1..]);
    assert Body(k.text) == u[1..][..|u[1..]| - |k.rest| - 1];
    if Decoded(Body(k.text)) == Some(s) {
      var items := DecodedIsLiteral(Body(k.text));
    }
    if Literal(Body(k.text), s) {
      var items :| AllValid(items) && TextOf(items) == Body(k.text) && MeaningOf(items) == s;
      LiteralDecodes(items);
    }
  }

  lemma QuoteStarts(t: Bytes)
    requires ReadToken(t).kind == StringToken
    ensures var u := SkipSpaces(t);
      u != [] && u[0] == QUOTE && ScanString(u[1..]) == (true, ReadToken(t).rest) &&
      ReadToken(t).text == u[..|u| - |ReadToken(t).rest|]
  {
    hide SkipSpaces, Lex;
    var u := SkipSpaces(t);
    if u != [] { QuoteLexed(u[0], u[1..]); }
  }

  lemma QuoteLexed(c: byte, t: Bytes)
    ensures Lex(c, t).0 == StringToken ==> c == QUOTE && ScanString(t) == (true, Lex(c, t).1)
  {
    hide ScanString, AfterNumber, AfterComment, AfterPattern;
  }

  /** A string literal is one token, whatever follows it, and reads as what it stands for. */
  lemma LiteralReads(items: seq<Item>, rest: Bytes, depth: nat, toDouble: Bytes -> Option<real>)
    requires AllValid(items) && depth <= STACK_LIMIT && |MeaningOf(items)| <= STRING_LIMIT
    ensures ReadValue([QUOTE] + TextOf(items) + [QUOTE] + rest, depth, toDouble) == Good(Str(MeaningOf(items)), rest)
  {
    hide AllValid, TextOf, MeaningOf, Decoded, ScanString, Lex;
    var body := TextOf(items);
    var t := [QUOTE] + body + [QUOTE] + rest;
    LiteralScans(items, rest);
    LiteralDecodes(items);
    QuoteLexes(body, rest);
    assert Body([QUOTE] + body + [QUOTE]) == body;
  }

  lemma QuoteLexes(body: Bytes, rest: Bytes)
    requires ScanString(body + ([QUOTE] + rest)) == (true, rest)
    ensures SkipComments([QUOTE] + body + [QUOTE] + rest) == Token(StringToken, [QUOTE] + body + [QUOTE], rest)
  {
    hide ScanString;
    var t := [QUOTE] + body + [QUOTE] + rest;
    assert t[1..] == body + ([QUOTE] + rest);
    assert SkipSpaces(t) == t;
    assert t[..|t| - |rest|] == [QUOTE] + body + [QUOTE];
    assert ReadToken(t) == Token(StringToken, [QUOTE] + body + [QUOTE], rest);
  }

  /** A document that is one string literal. */
  lemma LiteralDocument(items: seq<Item>, toDouble: Bytes -> Option<real>)
    requires AllValid(items) && |MeaningOf(items)| <= STRING_LIMIT
    ensures Parse([QUOTE] + TextOf(items) + [QUOTE], toDouble) == Good(Str(MeaningOf(items)), [])
  {
    hide AllValid, TextOf, MeaningOf, ReadValue;
    var t := [QUOTE] + TextOf(items) + [QUOTE];
    LiteralReads(items, [], 1, toDouble);
    assert t + [] == t && SkipComments([]).rest == [] && t[0] == QUOTE && BOM[0] != QUOTE;
  }
}
