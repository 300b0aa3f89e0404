/** MD5 over a message that arrives in pieces: the bit count in two words, the buffer, the
    padding. The transformation of one block is a parameter. */
module Md5 {
  import opened Bytes

  const TWO32: nat := 0x1_0000_0000
  const TWO64: nat := 0x1_0000_0000_0000_0000

  type Word = w: int | 0 <= w < 0x1_0000_0000

  /** The four state words, and MD5Transform on them. */
  type State = s: seq<Word> | |s| == 4 witness [0, 0, 0, 0]

  const INITIAL: State := [0x67452301, 0xEFCDAB89, 0x98BADCFE, 0x10325476]

  /** Whole blocks of 64 bytes, one after another. */
  function Fold(transform: (State, Bytes) -> State, h: State, m: Bytes): State
    requires |m| % 64 == 0
    decreases |m|
  {
    if m == [] then h else transform(Fold(transform, h, m[..|m| - 64]), m[|m| - 64..])
  }

  /** The `k` low bytes of a number, the least significant first. */
  function Little(v: nat, k: nat): (s: Bytes)
    ensures |s| == k
  {
    if k == 0 then [] else [v % 256] + Little(v / 256, k - 1)
  }

  function Zeros(n: nat): (z: Bytes)
    ensures |z| == n
  {
    seq(n, i => 0)
  }

  /** The bytes that fill a message of `n` bytes up to room for the length. */
  function Filler(n: nat): (f: Bytes)
    ensures 1 <= |f| <= 64 && (n + |f|) % 64 == 56
  {
    [0x80] + Zeros((119 - n % 64) % 64)
  }

  /** Sections 3.1 and 3.2 of RFC 1321: a one bit, zeros, and the length in bits modulo 2^64. */
  function Padded(m: Bytes): (p: Bytes)
    ensures |p| % 64 == 0
  {
    RoomForLength(|m| + |Filler(|m|)|);
    m + Filler(|m|) + Little(8 * |m| % TWO64, 8)
  }

  lemma RoomForLength(n: nat)
    requires n % 64 == 56
    ensures (n + 8) % 64 == 0
  {
  }

  /** MD5Encode. */
  function Encoded(ws: seq<Word>): (s: Bytes)
    ensures |s| == 4 * |ws|
  {
    if ws == [] then [] else Encoded(ws[..|ws| - 1]) + Little(ws[|ws| - 1], 4)
  }

  /** Section 3.3 of RFC 1321 lists the initial words as these bytes, low-order first. */
  lemma InitialBytes()
    ensures Encoded(INITIAL) ==
            [0x01, 0x23, 0x45, 0x67, 0x89, 0xab, 0xcd, 0xef, 0xfe, 0xdc, 0xba, 0x98, 0x76, 0x54, 0x32, 0x10]
  {
    EncodedFour(INITIAL);
    LittleOf(0x67452301, 0x01, 0x23, 0x45, 0x67);
    LittleOf(0xEFCDAB89, 0x89, 0xab, 0xcd, 0xef);
    LittleOf(0x98BADCFE, 0xfe, 0xdc, 0xba, 0x98);
    LittleOf(0x10325476, 0x76, 0x54, 0x32, 0x10);
    hide Encoded, Little;
  }

  lemma EncodedFour(ws: seq<Word>)
    requires |ws| == 4
    ensures Encoded(ws) == Little(ws[0], 4) + Little(ws[1], 4) + Little(ws[2], 4) + Little(ws[3], 4)
  {
    hide *;
    var three := ws[..3];
    var two := three[..2];
    var one := two[..1];
    EncodedLast(ws);
    EncodedLast(three);
    EncodedLast(two);
    EncodedLast(one);
    EncodedNone();
    assert one[..0] == [];
    assert [] + Little(ws[0], 4) == Little(ws[0], 4);
  }

  lemma EncodedLast(ws: seq<Word>)
    requires ws != []
    ensures Encoded(ws) == Encoded(ws[..|ws| - 1]) + Little(ws[|ws| - 1], 4)
  {
  }

  lemma LittleOf(v: nat, a: byte, b: byte, c: byte, d: byte)
    requires v == a + 256 * (b + 256 * (c + 256 * d))
    ensures Little(v, 4) == [a, b, c, d]
  {
    hide *;
    LittleNext(a, b + 256 * (c + 256 * d), 3);
    LittleNext(b, c + 256 * d, 2);
    LittleNext(c, d, 1);
    LittleNext(d, 0, 0);
    assert Little(0, 0) == [];
  }

  lemma LittleNext(a: byte, q: nat, k: nat)
    ensures Little(a + 256 * q, k + 1) == [a] + Little(q, k)
  {
    Shift(a, q);
  }

  /** The digest of a whole message. */
  function Digest(transform: (State, Bytes) -> State, m: Bytes): Bytes {
    Encoded(Fold(transform, INITIAL, Padded(m)))
  }

  // ----- lemmas

  lemma FoldMore(transform: (State, Bytes) -> State, h: State, m: Bytes, block: Bytes)
    requires |m| % 64 == 0 && |block| == 64
    ensures |m + block| % 64 == 0 && Fold(transform, h, m + block) == transform(Fold(transform, h, m), block)
  {
    var all := m + block;
    assert all[..|all| - 64] == m && all[|all| - 64..] == block;
  }

  /** Two little-endian words side by side are one little-endian number. */
  lemma LittleWords(low: Word, high: Word)
    ensures Little(low + TWO32 * high, 8) == Little(low, 4) + Little(high, 4)
  {
    Scaled4(1);
    Scaled4(high);
    LittleSplit(low, high, 4);
  }

  lemma Scaled4(n: nat)
    ensures Scaled(4, n) == TWO32 * n
  {
    assert Scaled(2, n) == 256 * (256 * Scaled(0, n));
    assert Scaled(4, n) == 256 * (256 * Scaled(2, n));
  }

  lemma {:induction false} LittleSplit(low: nat, high: nat, k: nat)
    requires low < Scaled(k, 1)
    ensures Little(low + Scaled(k, high), k + 4) == Little(low, k) + Little(high, 4)
    decreases k
  {
    if k > 0 {
      Shift(low, Scaled(k - 1, high));
      LittleSplit(low / 256, high, k - 1);
    }
  }

  /** The number with `k` zero octets below it. */
  function Scaled(k: nat, n: nat): nat {
    if k == 0 then n else 256 * Scaled(k - 1, n)
  }

  lemma Shift(low: nat, q: nat)
    ensures (low + 256 * q) % 256 == low % 256 && (low + 256 * q) / 256 == low / 256 + q
  {
  }

  /** The code's two-word addition of 8 * len to the count. */
  lemma CountAdds(n: nat, len: nat)
    requires len < TWO32
    ensures
      var low, add := 8 * n % TWO32, 8 * len % TWO32;
      var low' := (low + add) % TWO32;
      var carry := if low' < add then 1 else 0;
      low' == 8 * (n + len) % TWO32 &&
      (8 * n / TWO32 % TWO32 + carry + len / 0x2000_0000) % TWO32 == 8 * (n + len) / TWO32 % TWO32
  {
    var low, high := 8 * n % TWO32, 8 * n / TWO32;
    var add, top := 8 * len % TWO32, 8 * len / TWO32;
    assert 8 * n == high * TWO32 + low && 8 * len == top * TWO32 + add;
    assert top == len / 0x2000_0000;
    var carry := (low + add) / TWO32;
    assert 8 * (n + len) == (high + top + carry) * TWO32 + (low + add) % TWO32;
    Divided(8 * (n + len), high + top + carry, (low + add) % TWO32);
    Modulo(high, carry + top);
  }

  lemma Divided(a: nat, q: nat, r: nat)
    requires a == q * TWO32 + r && r < TWO32
    ensures a / TWO32 == q && a % TWO32 == r
  {
  }

  lemma Modulo(a: nat, b: nat)
    ensures (a % TWO32 + b) % TWO32 == (a + b) % TWO32
  {
    var q, r := a / TWO32, a % TWO32;
    var q', r' := (r + b) / TWO32, (r + b) % TWO32;
    assert a + b == (q + q') * TWO32 + r';
    Divided(a + b, q + q', r');
  }

  /** The place in the buffer, from the low count word. */
  lemma Index(n: nat)
    ensures 8 * n % TWO32 / 8 % 64 == n % 64
  {
    var q := 8 * n / TWO32;
    assert 8 * n % TWO32 == 8 * (n - 0x2000_0000 * q);
    assert n - 0x2000_0000 * q == 8 * n % TWO32 / 8;
    var m := n - 0x2000_0000 * q;
    assert n == m + 64 * (0x80_0000 * q);
    Same(m, 0x80_0000 * q);
  }

  lemma Same(m: nat, q: nat)
    ensures (m + 64 * q) % 64 == m % 64
  {
  }

  lemma Wide(n: nat)
    ensures 8 * n % TWO32 + TWO32 * (8 * n / TWO32 % TWO32) == 8 * n % TWO64
  {
    var q, r := 8 * n / TWO32, 8 * n % TWO32;
    var a, b := q / TWO32, q % TWO32;
    assert 8 * n == q * TWO32 + r && q == a * TWO32 + b;
    assert 8 * n == a * TWO64 + (b * TWO32 + r);
    Divided64(8 * n, a, b * TWO32 + r);
  }

  lemma Divided64(x: nat, q: nat, r: nat)
    requires x == q * TWO64 + r && r < TWO64
    ensures x % TWO64 == r
  {
  }

  // ----- the code

  class Context {
    const transform: (State, Bytes) -> State
    var count0: Word
    var count1: Word
    var state: State
    const buffer: array<byte>
    /** All the bytes since the last MD5Init. */
    ghost var fed: Bytes

    ghost predicate Valid()
      reads this, buffer
    {
      buffer.Length == 64 && Counted(|fed|) && Hashed(fed[..|fed| - |fed| % 64]) &&
        buffer[..|fed| % 64] == fed[|fed| - |fed| % 64..]
    }

    /** The count words are the bit count of `n` bytes, modulo 2^64. */
    ghost predicate Counted(n: nat)
      reads `count0, `count1
    {
      count0 == 8 * n % TWO32 && count1 == 8 * n / TWO32 % TWO32
    }

    ghost predicate Hashed(m: Bytes)
      reads `state
    {
      |m| % 64 == 0 && state == Fold(transform, INITIAL, m)
    }

    /** MD5Init. */
    constructor (transform: (State, Bytes) -> State)
      ensures Valid() && fed == [] && this.transform == transform && fresh(buffer)
    {
      this.transform := transform;
      count0, count1 := 0, 0;
      state := INITIAL;
      buffer := new byte[64](_ => 0);
      fed := [];
    }

    /** memcpy into the buffer. */
    method Copy(at: nat, from: Bytes)
      requires at + |from| <= buffer.Length
      modifies buffer
      ensures buffer[..at] == old(buffer[..at]) && buffer[at..at + |from|] == from
    {
      forall k | 0 <= k < |from| {
        buffer[at + k] := from[k];
      }
    }

    /** memcpy behind the bytes already there. */
    method Append(input: Bytes, index: nat)
      requires index + |input| <= buffer.Length
      modifies buffer
      ensures buffer[..index + |input|] == old(buffer[..index]) + input
    {
      Copy(index, input);
      assert buffer[..index + |input|] == buffer[..index] + buffer[index..index + |input|];
    }

    /** The two-word count of bits. */
    method AddCount(len: nat)
      requires len < TWO32 && Counted(|fed|)
      modifies `count0, `count1
      ensures Counted(|fed| + len)
    {
      CountAdds(|fed|, len);
      var add := 8 * len % TWO32;
      count0 := (count0 + add) % TWO32;
      ghost var carry := if count0 < add then 1 else 0;
      Modulo(count1 + carry, len / 0x2000_0000);
      if count0 < add {
        count1 := (count1 + 1) % TWO32;
      }
      count1 := (count1 + len / 0x2000_0000) % TWO32;
    }

    /** MD5Update: the bytes join those fed before, whatever the cuts. */
    method Update(input: Bytes)
      requires Valid() && |input| < TWO32 - 64
      modifies this, buffer
      ensures Valid() && fed == old(fed) + input
    {
      hide *;
      var index, partlen := Place();
      AddCount(|input|);
      ghost var whole := Absorb(input, index, partlen);
      fed := fed + input;
      Settled(whole);
    }

    /** The bytes beyond the last whole block are in the buffer, the blocks in the state. */
    ghost predicate Holding(all: Bytes, whole: nat)
      reads `state, buffer
    {
      && buffer.Length == 64 && whole % 64 == 0 && whole <= |all| < whole + 64
      && Hashed(all[..whole]) && buffer[..|all| - whole] == all[whole..]
    }

    /** The blocks that the input completes, and its last bytes. */
    method Absorb(input: Bytes, index: nat, partlen: nat) returns (ghost whole: nat)
      requires |input| < TWO32 - 64 && index < 64 && partlen == 64 - index
      requires index <= |fed| && Holding(fed, |fed| - index)
      modifies `state, buffer
      ensures Holding(fed + input, whole)
    {
      hide Fold, Hashed;
      whole := |fed| - index;
      ghost var all := fed + input;
      Tail(|fed|, whole);
      if |input| >= partlen {
        var i := TakeBlocks(input, index);
        Copy(0, input[i..]);
        whole := |fed| + i;
        assert all[whole..] == input[i..];
      } else {
        assert all[..whole] == fed[..whole];
        assert all[whole..] == fed[whole..] + input;
        Append(input, index);
      }
    }

    /** Where the next byte goes, and how many fit. */
    method Place() returns (index: nat, partlen: nat)
      requires Valid()
      ensures index < 64 && index <= |fed| && partlen == 64 - index
      ensures Counted(|fed|) && Holding(fed, |fed| - index)
    {
      Index(|fed|);
      index := count0 / 8 % 64;
      partlen := 64 - index;
    }

    lemma Settled(whole: nat)
      requires Counted(|fed|) && Holding(fed, whole)
      ensures Valid()
    {
      hide Counted, Hashed;
      Tail(|fed|, whole);
    }

    /** The whole blocks of MD5Update. */
    method TakeBlocks(input: Bytes, index: nat) returns (i: nat)
      requires buffer.Length == 64 && index == |fed| % 64 && 64 - index <= |input| < TWO32 - 64
      requires Hashed(fed[..|fed| - index]) && buffer[..index] == fed[|fed| - index..]
      modifies `state, buffer
      ensures i <= |input| < i + 64 && (|fed| + i) % 64 == 0 && Hashed((fed + input)[..|fed| + i])
    {
      hide Fold;
      ghost var n, all := |fed|, fed + input;
      i := 64 - index;
      Copy(index, input[..i]);
      assert buffer[..] == buffer[..index] + buffer[index..];
      assert all[..n + i] == fed[..n - index] + buffer[..];
      FoldMore(transform, INITIAL, fed[..n - index], buffer[..]);
      state := transform(state, buffer[..]);
      while (i + 64) % TWO32 <= |input|
        modifies `state
        invariant i <= |input| && Hashed(all[..n + i])
        decreases |input| - i
      {
        assert all[..n + i + 64] == all[..n + i] + input[i..i + 64];
        FoldMore(transform, INITIAL, all[..n + i], input[i..i + 64]);
        state := transform(state, input[i..i + 64]);
        i := i + 64;
      }
    }

    /** MD5Final: the digest of all bytes fed. The padding stays behind in the context. */
    method Final() returns (digest: Bytes)
      requires Valid()
      modifies this, buffer
      ensures digest == Digest(transform, old(fed))
      ensures Valid() && fed == Padded(old(fed))
    {
      hide Fold, Little, Encoded;
      ghost var m := fed;
      Index(|m|);
      var index := count0 / 8 % 64;
      var padlen := if index < 56 then 56 - index else 120 - index;
      FillerLength(|m|);
      LengthBytes(count0, count1, |m|);
      var bits := Encode([count0, count1]);
      Update(PADDING[..padlen]);
      Update(bits);
      digest := Encode(state);
      assert fed == Padded(m);
      assert fed[..|fed|] == fed;
    }

    /** MD5Encode. */
    method Encode(ws: seq<Word>) returns (output: Bytes)
      ensures output == Encoded(ws)
    {
      hide Encoded;
      output := [];
      EncodedNone();
      assert ws[..0] == [];
      var i := 0;
      while i < |ws|
        invariant 0 <= i <= |ws| && output == Encoded(ws[..i])
      {
        var w := ws[i];
        EncodedMore(ws, i);
        output := output + [w % 256, w / 256 % 256, w / 256 / 256 % 256, w / 256 / 256 / 256 % 256];
        i := i + 1;
      }
      assert ws[..|ws|] == ws;
    }
  }

  lemma Tail(a: nat, whole: nat)
    requires whole % 64 == 0 && whole <= a < whole + 64
    ensures a % 64 == a - whole
  {
  }

  /** PADDING. */
  const PADDING: Bytes := [0x80] + Zeros(63)

  lemma FillerLength(n: nat)
    ensures var index := n % 64;
            var padlen := if index < 56 then 56 - index else 120 - index;
            padlen <= 64 && PADDING[..padlen] == Filler(n)
  {
    var z := (119 - n % 64) % 64;
    assert ([0x80] + Zeros(63))[..z + 1] == [0x80] + Zeros(z);
  }

  lemma LengthBytes(low: Word, high: Word, n: nat)
    requires low == 8 * n % TWO32 && high == 8 * n / TWO32 % TWO32
    ensures Encoded([low, high]) == Little(8 * n % TWO64, 8)
  {
    hide Little;
    Wide(n);
    LittleWords(low, high);
    assert [low, high][..1] == [low] && [low][..0] == [];
    assert [] + Little(low, 4) == Little(low, 4);
  }

  lemma EncodedNone()
    ensures Encoded([]) == []
  {
  }

  lemma EncodedMore(ws: seq<Word>, i: nat)
    requires i < |ws|
    ensures var w := ws[i];
            Encoded(ws[..i + 1]) == Encoded(ws[..i]) +
              [w % 256, w / 256 % 256, w / 256 / 256 % 256, w / 256 / 256 / 256 % 256]
  {
    assert ws[..i + 1][..i] == ws[..i];
    LittleFour(ws[i]);
  }

  lemma LittleFour(w: nat)
    ensures Little(w, 4) == [w % 256, w / 256 % 256, w / 256 / 256 % 256, w / 256 / 256 / 256 % 256]
  {
    var x := w / 256;
    var y := x / 256;
    assert Little(w, 4) == [w % 256] + Little(x, 3);
    assert Little(x, 3) == [x % 256] + Little(y, 2);
    assert Little(y, 2) == [y % 256] + Little(y / 256, 1);
    assert Little(y / 256, 1) == [y / 256 % 256] + Little(y / 256 / 256, 0);
  }
}
