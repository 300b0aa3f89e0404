/** Integer literals: printing them into a fixed buffer and decoding them without
    overflow. */
module JsonNumbers {
  import opened Bytes
  import opened Decimals
  import opened JsonValue

  // ----- printing

  /** The decimal numeral of n, most significant digit first. */
  function Digits(n: nat): (ds: Bytes)
    ensures ds != []
    ensures forall k :: 0 <= k < |ds| ==> IsDigit(ds[k])
  {
    if n < 10 then [48 + n] else Digits(n / 10) + [48 + n % 10]
  }

  function Pow10(k: nat): nat {
    if k == 0 then 1 else 10 * Pow10(k - 1)
  }

  lemma {:induction false} DigitsLength(n: nat, k: nat)
    requires n < Pow10(k) && k > 0
    ensures |Digits(n)| <= k
  {
    if n >= 10 { DigitsLength(n / 10, k - 1); }
  }

  lemma UintDigits(n: nat)
    requires n <= MAX_UINT
    ensures |Digits(n)| <= 20
  {
    assert Pow10(5) == 100000;
    assert Pow10(10) == 10000000000;
    assert Pow10(15) == 1000000000000000;
    assert Pow10(20) == 100000000000000000000;
    DigitsLength(n, 20);
  }

  lemma {:induction false} NextDigit(n: nat)
    ensures Digits(n) == (if n < 10 then [] else Digits(n / 10)) + [48 + n % 10] && (n < 10 <==> n / 10 == 0)
  {
  }

  /** uintToString: writes the numeral and a NUL backwards, ending at `current`. */
  method UintToString(value: nat, buffer: array<byte>, current: nat) returns (at: nat)
    requires value <= MAX_UINT && 21 <= current <= buffer.Length
    modifies buffer
    ensures current - 21 <= at < current
    ensures buffer[at..current] == Digits(value) + [NUL]
    ensures forall k :: 0 <= k < buffer.Length && !(at <= k < current) ==> buffer[k] == old(buffer[k])
  {
    UintDigits(value);
    NextDigit(value);
    hide Digits;
    at := current - 1;
    buffer[at] := NUL;
    assert buffer[at..current] == [NUL];
    var v := value;
    at := PutDigit(buffer, at, current, v % 10);
    v := v / 10;
    while v != 0
      invariant 0 <= v <= MAX_UINT && 0 <= at < current
      invariant Digits(value) + [NUL] == (if v == 0 then [] else Digits(v)) + buffer[at..current]
      invariant Unchanged(buffer, at, current, old(buffer[..]))
    {
      NextDigit(v);
      ghost var tail := buffer[at..current];
      at := PutDigit(buffer, at, current, v % 10);
      Regrouped(if v < 10 then [] else Digits(v / 10), v % 10 + 48, tail);
      v := v / 10;
    }
  }

  /** The buffer outside the given places is as it was. */
  ghost predicate Unchanged(buffer: array<byte>, at: nat, current: nat, was: Bytes)
    reads buffer
  {
    |was| == buffer.Length && forall k :: 0 <= k < buffer.Length && !(at <= k < current) ==> buffer[k] == was[k]
  }

  lemma Regrouped(a: Bytes, b: byte, c: Bytes)
    ensures a + [b] + c == a + ([b] + c)
  {
  }

  /** `*--current` for one digit. */
  method PutDigit(buffer: array<byte>, at: nat, current: nat, digit: nat) returns (next: nat)
    requires 0 < at < current <= buffer.Length && digit < 10
    modifies buffer
    ensures next == at - 1 && buffer[next..current] == [digit + 48] + old(buffer[at..current])
    ensures Unchanged(buffer, next, current, old(buffer[..]))
  {
    next := at - 1;
    ghost var tail := buffer[at..current];
    buffer[next] := digit + 48;
    assert buffer[at..current] == tail;
    assert buffer[next..current] == [buffer[next]] + tail;
  }

  /** uintToStringBufferSize, 3 * sizeof(LargestUInt) + 1. */
  const BUFFER_SIZE: nat := 25

  function IntText(i: int): Bytes {
    if i < 0 then [MINUS] + Digits(-i) else Digits(i)
  }

  /** valueToString(LargestInt): the buffer always has room, and the text read from it up
      to the NUL is the numeral. */
  method IntToString(value: int) returns (text: Bytes)
    requires -MAX_INT - 1 <= value <= MAX_INT
    ensures text == IntText(value)
  {
    var buffer := new byte[BUFFER_SIZE](_ => NUL);
    var current;
    if value == -MAX_INT - 1 {
      current := UintToString(MAX_INT + 1, buffer, BUFFER_SIZE);
      current := current - 1;
      buffer[current] := MINUS;
    } else if value < 0 {
      current := UintToString(-value, buffer, BUFFER_SIZE);
      current := current - 1;
      buffer[current] := MINUS;
    } else {
      current := UintToString(value, buffer, BUFFER_SIZE);
    }
    text := buffer[current..BUFFER_SIZE - 1];
    if value < 0 {
      assert buffer[current + 1..BUFFER_SIZE] == Digits(-value) + [NUL];
      assert text == [MINUS] + buffer[current + 1..BUFFER_SIZE][..BUFFER_SIZE - 2 - current];
    } else {
      assert text == buffer[current..BUFFER_SIZE][..BUFFER_SIZE - 1 - current];
    }
  }

  /** valueToString(LargestUInt). */
  method UIntToString(value: nat) returns (text: Bytes)
    requires value <= MAX_UINT
    ensures text == Digits(value)
  {
    var buffer := new byte[BUFFER_SIZE](_ => NUL);
    var current := UintToString(value, buffer, BUFFER_SIZE);
    text := buffer[current..BUFFER_SIZE - 1];
    assert text == buffer[current..BUFFER_SIZE][..BUFFER_SIZE - 1 - current];
  }

  // ----- decoding

  /** The digit loop of decodeNumber; None is the fall back to decodeDouble. */
  function DigitLoop(value: nat, ds: Bytes, threshold: nat, maxLast: nat): Option<nat>
    decreases |ds|
  {
    if ds == [] then Some(value)
    else if !IsDigit(ds[0]) then None
    else if value >= threshold && (value > threshold || |ds| != 1 || ds[0] - 48 > maxLast) then None
    else DigitLoop(value * 10 + (ds[0] - 48), ds[1..], threshold, maxLast)
  }

  /** decodeNumber on the token's text: the integer, or None for decodeDouble. */
  function DecodeInt(text: Bytes): Option<Value>
    requires text != []
  {
    var negative := text[0] == MINUS;
    var ds := if negative then text[1..] else text;
    var threshold := if negative then (MAX_INT + 1) / 10 else MAX_UINT / 10;
    var maxLast := if negative then (MAX_INT + 1) % 10 else MAX_UINT % 10;
    match DigitLoop(0, ds, threshold, maxLast)
    case None => None
    case Some(v) =>
      if negative then Some(Int(-(v / 10) * 10 - v % 10))
      else if v <= MAX_INT then Some(Int(v))
      else Some(UInt(v))
  }

  newtype uint64 = x: int | 0 <= x <= 0xffff_ffff_ffff_ffff

  /** decodeNumber as it runs, on 64-bit words: no step overflows. */
  method DecodeNumber(text: Bytes) returns (r: Option<Value>)
    requires text != []
    ensures r == DecodeInt(text)
  {
    var current := 0;
    var negative := text[0] == MINUS;
    if negative {
      current := 1;
    }
    ghost var ds := text[current..];
    var threshold: uint64 := if negative then 0x8000_0000_0000_0000 / 10 else 0xffff_ffff_ffff_ffff / 10;
    var maxLast: uint64 := if negative then 0x8000_0000_0000_0000 % 10 else 0xffff_ffff_ffff_ffff % 10;
    var value: uint64 := 0;
    while current < |text|
      invariant 0 <= current <= |text|
      invariant DigitLoop(0, ds, threshold as nat, maxLast as nat)
             == DigitLoop(value as nat, text[current..], threshold as nat, maxLast as nat)
    {
      var c := text[current];
      current := current + 1;
      if !IsDigit(c) {
        return None;
      }
      var digit := (c - 48) as uint64;
      if value >= threshold {
        if value > threshold || current != |text| || digit > maxLast {
          return None;
        }
      }
      assert text[current - 1..][1..] == text[current..];
      value := value * 10 + digit;
    }
    if negative {
      return Some(Int(-((value / 10) as int) * 10 - (value % 10) as int));
    } else if value <= 0x7fff_ffff_ffff_ffff {
      return Some(Int(value as int));
    } else {
      return Some(UInt(value as int));
    }
  }

  lemma {:induction false} LoopIsNumeral(value: nat, ds: Bytes, threshold: nat, maxLast: nat)
    requires threshold > 0 && maxLast < 10 && value <= threshold * 10 + maxLast
    ensures DigitLoop(value, ds, threshold, maxLast)
         == if AllDigits(ds) && Numeral(value, ds) <= threshold * 10 + maxLast then Some(Numeral(value, ds)) else None
    decreases |ds|
  {
    if ds != [] && IsDigit(ds[0]) {
      var d := ds[0] - 48;
      assert ds == [ds[0]] + ds[1..];
      if value == threshold && |ds| > 1 {
        if AllDigits(ds) { assert Numeral(10 * value + d, ds[1..]) >= 10 * (10 * value + d); }
      } else if value * 10 + d <= threshold * 10 + maxLast {
        LoopIsNumeral(value * 10 + d, ds[1..], threshold, maxLast);
      } else if AllDigits(ds) {
        assert Numeral(value, ds) >= 10 * value + d;
      }
    }
  }

  /** decodeNumber yields the exact integer precisely when it fits: an optional minus and
      digits decode to an integer if and only if the number lies in [-2^63, 2^64-1], and
      everything else falls back to double. */
  lemma IntegerLiteral(negative: bool, ds: Bytes)
    requires ds != [] && ds[0] != MINUS
    ensures var r := DecodeInt(if negative then [MINUS] + ds else ds);
            if !AllDigits(ds) then r == None
            else if negative then r == (if Numeral(0, ds) <= MAX_INT + 1 then Some(Int(0 - Numeral(0, ds))) else None)
            else if Numeral(0, ds) <= MAX_INT then r == Some(Int(Numeral(0, ds)))
            else r == (if Numeral(0, ds) <= MAX_UINT then Some(UInt(Numeral(0, ds))) else None)
  {
    LoopIsNumeral(0, ds, if negative then (MAX_INT + 1) / 10 else MAX_UINT / 10,
                  if negative then (MAX_INT + 1) % 10 else MAX_UINT % 10);
    if negative {
      assert ([MINUS] + ds)[1..] == ds;
    }
  }

  lemma {:induction false} NumeralOfDigits(n: nat)
    ensures Numeral(0, Digits(n)) == n
  {
    if n >= 10 {
      NumeralOfDigits(n / 10);
      NumeralAppend(0, Digits(n / 10), 48 + n % 10);
    } else {
      assert Digits(n)[1..] == [];
    }
  }

  /** Printing any 64-bit integer and decoding it returns the same number, signed where it
      fits a signed word. */
  lemma PrintThenDecode(i: int)
    requires -MAX_INT - 1 <= i <= MAX_UINT
    ensures DecodeInt(IntText(i)) == Some(if i <= MAX_INT then Int(i) else UInt(i))
  {
    var n := if i < 0 then -i else i;
    NumeralOfDigits(n);
    IntegerLiteral(i < 0, Digits(n));
  }

  /** A lone minus, which readNumber accepts as a number token, decodes to the integer 0. */
  lemma LoneMinusIsZero()
    ensures DecodeInt([MINUS]) == Some(Int(0))
  {
  }
}
