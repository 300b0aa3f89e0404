/** CRC-16 with any multinomial: what it detects, and what appending it does. */
module Crc16 {
  type Octet = bv8
  type Register = bv16

  function Xor(x: Register, y: Register): Register {
    x ^ y
  }

  function Half(c: Register): Register {
    c >> 1
  }

  predicate Odd(c: Register) {
    c & 1 != 0
  }

  /** One turn of the inner loop. */
  function Shift(c: Register, poly: Register): Register {
    if Odd(c) then Xor(Half(c), poly) else Half(c)
  }

  function Shifts(c: Register, poly: Register, n: nat): Register {
    if n == 0 then c else Shift(Shifts(c, poly, n - 1), poly)
  }

  function Mixed(c: Register, octet: Octet): Register {
    c ^ (octet as Register)
  }

  /** One turn of the outer loop. */
  function Feed(c: Register, poly: Register, octet: Octet): Register {
    Shifts(Mixed(c, octet), poly, 8)
  }

  /** The register after the octets, starting from `c`. */
  function Run(c: Register, poly: Register, data: seq<Octet>): Register
    decreases |data|
  {
    if data == [] then c else Feed(Run(c, poly, data[..|data| - 1]), poly, data[|data| - 1])
  }

  const START: Register := 0xFFFF

  /** crc16. Its counter has 32 bits, so longer data would never end. */
  method Crc(data: seq<Octet>, multinomial: Register) returns (crc: Register)
    requires |data| < 0x1_0000_0000
    ensures crc == Run(START, multinomial, data)
  {
    hide Shift, Run;
    RunNothing(START, multinomial);
    crc := START;
    var i := 0;
    assert data[..0] == [];
    while i < |data|
      invariant 0 <= i <= |data| && crc == Run(START, multinomial, data[..i])
    {
      ghost var before := crc;
      crc := Mixed(crc, data[i]);
      ghost var mixed := crc;
      var j := 0;
      while j < 8
        invariant 0 <= j <= 8 && crc == Shifts(mixed, multinomial, j)
      {
        crc := Shift(crc, multinomial);
        j := j + 1;
      }
      RunMore(START, multinomial, data, i);
      i := i + 1;
    }
    assert data[..|data|] == data;
  }

  lemma RunNothing(c: Register, poly: Register)
    ensures Run(c, poly, []) == c
  {
  }

  lemma RunMore(c: Register, poly: Register, data: seq<Octet>, i: nat)
    requires i < |data|
    ensures Run(c, poly, data[..i + 1]) == Shifts(Mixed(Run(c, poly, data[..i]), data[i]), poly, 8)
  {
    hide Shifts, Mixed;
    assert data[..i + 1][..i] == data[..i];
  }

  // ----- the register is linear

  lemma HalfXor(x: Register, y: Register)
    ensures Half(Xor(x, y)) == Xor(Half(x), Half(y))
    ensures Odd(Xor(x, y)) <==> Odd(x) != Odd(y)
  {
  }

  lemma XorLaws(a: Register, b: Register, p: Register)
    ensures Xor(Xor(a, p), Xor(b, p)) == Xor(a, b)
    ensures Xor(Xor(a, p), b) == Xor(Xor(a, b), p) == Xor(a, Xor(b, p))
    ensures Xor(a, 0) == a == Xor(0, a) && (Xor(a, b) == 0 <==> a == b)
  {
    XorCancels(a, b, p);
    XorMoves(a, b, p);
    XorMoves(a, p, b);
    XorZero(a, b);
  }

  lemma XorCancels(a: Register, b: Register, p: Register)
    ensures Xor(Xor(a, p), Xor(b, p)) == Xor(a, b)
  {
    hide Xor;
    XorPairs(a, p, b, p);
    XorZero(p, p);
    XorZero(Xor(a, b), 0);
  }

  lemma XorPairs(a: Register, b: Register, c: Register, d: Register)
    ensures Xor(Xor(a, b), Xor(c, d)) == Xor(Xor(a, c), Xor(b, d))
  {
    hide Xor;
    XorMoves(a, b, Xor(c, d));
    XorMoves(c, d, b);
    XorMoves(a, c, Xor(b, d));
  }

  lemma XorMoves(a: Register, b: Register, p: Register)
    ensures Xor(Xor(a, b), p) == Xor(a, Xor(b, p)) == Xor(a, Xor(p, b))
  {
  }

  lemma XorZero(a: Register, b: Register)
    ensures Xor(a, 0) == a == Xor(0, a) && (Xor(a, b) == 0 <==> a == b)
  {
    hide Xor;
    XorSame(a);
    XorSame(b);
    XorNothing(a);
    XorNothing(b);
    XorMoves(a, b, b);
  }

  lemma XorSame(a: Register)
    ensures Xor(a, a) == 0
  {
  }

  lemma XorNothing(a: Register)
    ensures Xor(a, 0) == a && Xor(0, a) == a
  {
  }

  lemma ShiftLinear(x: Register, y: Register, poly: Register)
    ensures Shift(Xor(x, y), poly) == Xor(Shift(x, poly), Shift(y, poly))
  {
    hide Xor, Half, Odd;
    HalfXor(x, y);
    XorLaws(Half(x), Half(y), poly);
  }

  lemma {:induction false} ShiftsLinear(x: Register, y: Register, poly: Register, n: nat)
    ensures Shifts(Xor(x, y), poly, n) == Xor(Shifts(x, poly, n), Shifts(y, poly, n))
  {
    hide Shift, Xor;
    if n > 0 {
      ShiftsLinear(x, y, poly, n - 1);
      ShiftLinear(Shifts(x, poly, n - 1), Shifts(y, poly, n - 1), poly);
    }
  }

  /** The octets in which two messages differ. */
  function Difference(a: seq<Octet>, b: seq<Octet>): (d: seq<Octet>)
    requires |a| == |b|
    ensures |d| == |a|
  {
    seq(|a|, i requires 0 <= i < |a| => a[i] ^ b[i])
  }

  lemma MixedLinear(x: Register, y: Register, p: Octet, q: Octet)
    ensures Xor(Mixed(x, p), Mixed(y, q)) == Mixed(Xor(x, y), p ^ q)
  {
    Widened(p, q);
    MixedXor(x, p);
    MixedXor(y, q);
    MixedXor(Xor(x, y), p ^ q);
    hide Mixed, Xor;
    XorPairs(x, p as Register, y, q as Register);
  }

  lemma MixedXor(c: Register, octet: Octet)
    ensures Mixed(c, octet) == Xor(c, octet as Register)
  {
  }

  lemma Widened(p: Octet, q: Octet)
    ensures (p ^ q) as Register == Xor(p as Register, q as Register)
  {
  }

  lemma FeedLinear(x: Register, y: Register, poly: Register, p: Octet, q: Octet)
    ensures Xor(Feed(x, poly, p), Feed(y, poly, q)) == Feed(Xor(x, y), poly, p ^ q)
  {
    hide Shifts, Mixed, Xor;
    MixedLinear(x, y, p, q);
    ShiftsLinear(Mixed(x, p), Mixed(y, q), poly, 8);
  }

  /** Two registers differ by what the differences alone make of the difference of their starts. */
  lemma {:induction false} RunLinear(x: Register, y: Register, poly: Register, a: seq<Octet>, b: seq<Octet>)
    requires |a| == |b|
    ensures Xor(Run(x, poly, a), Run(y, poly, b)) == Run(Xor(x, y), poly, Difference(a, b))
    decreases |a|
  {
    hide Feed, Xor;
    if a != [] {
      var n := |a| - 1;
      RunLinear(x, y, poly, a[..n], b[..n]);
      assert Difference(a, b)[..n] == Difference(a[..n], b[..n]);
      FeedLinear(Run(x, poly, a[..n]), Run(y, poly, b[..n]), poly, a[n], b[n]);
    }
  }

  // ----- and loses nothing, if its top bit is fed back

  lemma ShiftKeeps(c: Register, poly: Register)
    requires poly & 0x8000 != 0 && c != 0
    ensures Shift(c, poly) != 0
  {
    hide Half, Odd, Xor;
    HalfKeeps(c);
    TopBit(c, poly);
    XorLaws(Half(c), poly, 0);
  }

  lemma HalfKeeps(c: Register)
    ensures !Odd(c) && c != 0 ==> Half(c) != 0
  {
  }

  lemma TopBit(c: Register, poly: Register)
    ensures poly & 0x8000 != 0 ==> Half(c) != poly
  {
  }

  lemma {:induction false} ShiftsKeep(c: Register, poly: Register, n: nat)
    requires poly & 0x8000 != 0 && c != 0
    ensures Shifts(c, poly, n) != 0
  {
    if n > 0 {
      hide Shift;
      ShiftsKeep(c, poly, n - 1);
      ShiftKeeps(Shifts(c, poly, n - 1), poly);
    }
  }

  lemma {:induction false} ShiftsZero(poly: Register, n: nat)
    ensures Shifts(0, poly, n) == 0
  {
    assert Shift(0, poly) == 0;
    hide Shift;
    if n > 0 {
      ShiftsZero(poly, n - 1);
    }
  }

  predicate AllZero(data: seq<Octet>) {
    forall k :: 0 <= k < |data| ==> data[k] == 0
  }

  lemma {:induction false} ZerosKeep(c: Register, poly: Register, data: seq<Octet>)
    requires AllZero(data)
    ensures poly & 0x8000 != 0 && c != 0 ==> Run(c, poly, data) != 0
    ensures c == 0 ==> Run(c, poly, data) == 0
    decreases |data|
  {
    if data != [] {
      var n := |data| - 1;
      ZerosKeep(c, poly, data[..n]);
      ZeroFeed(Run(c, poly, data[..n]), poly);
    }
  }

  lemma ZeroFeed(c: Register, poly: Register)
    ensures poly & 0x8000 != 0 && c != 0 ==> Feed(c, poly, 0) != 0
    ensures c == 0 ==> Feed(c, poly, 0) == 0
  {
    assert Mixed(c, 0) == c;
    hide Shifts, Mixed;
    ShiftsZero(poly, 8);
    if poly & 0x8000 != 0 && c != 0 { ShiftsKeep(c, poly, 8); }
  }

  lemma {:induction false} RunSplit(c: Register, poly: Register, a: seq<Octet>, b: seq<Octet>)
    ensures Run(c, poly, a + b) == Run(Run(c, poly, a), poly, b)
    decreases |b|
  {
    hide Feed;
    if b == [] {
      assert a + b == a;
    } else {
      assert (a + b)[..|a + b| - 1] == a + b[..|b| - 1];
      RunSplit(c, poly, a, b[..|b| - 1]);
    }
  }

  // ----- what a CRC detects

  /** Two octets in a register, the first one low. */
  function Pair(p: Octet, q: Octet): Register {
    (p as Register) | ((q as Register) << 8)
  }

  /** An octet `n` places above the bottom. */
  function Lifted(q: Octet, n: nat): Register
    requires n <= 8
  {
    var c := q as Register;
    if n == 0 then c else if n == 1 then c << 1 else if n == 2 then c << 2 else if n == 3 then c << 3
    else if n == 4 then c << 4 else if n == 5 then c << 5 else if n == 6 then c << 6 else if n == 7 then c << 7
      else c << 8
  }

  lemma LiftedDown(q: Octet, n: nat, poly: Register)
    requires 0 < n <= 8
    ensures Shift(Lifted(q, n), poly) == Lifted(q, n - 1)
  {
  }

  /** An octet in the upper half comes down unchanged. */
  lemma {:induction false} UpperComesDown(q: Octet, poly: Register, n: nat)
    requires n <= 8
    ensures Shifts(Lifted(q, 8), poly, n) == Lifted(q, 8 - n)
  {
    hide Shift, Lifted;
    if n > 0 {
      UpperComesDown(q, poly, n - 1);
      LiftedDown(q, 9 - n, poly);
    }
  }

  lemma PairLaws(p: Octet, q: Octet)
    ensures Pair(p, q) == Xor(Mixed(0, p), Lifted(q, 8)) && (Pair(p, q) == 0 ==> p == 0 && q == 0)
    ensures Mixed(0, q) == Lifted(q, 0)
  {
  }

  lemma MixedIs(c: Register, q: Octet)
    ensures Mixed(c, q) == Xor(c, Mixed(0, q))
  {
  }

  /** Two octets fed to an empty register are sixteen shifts of both at once. */
  lemma TwoOctets(p: Octet, q: Octet, poly: Register)
    ensures Feed(Feed(0, poly, p), poly, q) == Shifts(Shifts(Pair(p, q), poly, 8), poly, 8)
  {
    hide Shifts, Mixed, Lifted, Pair, Xor;
    PairLaws(p, q);
    ShiftsLinear(Mixed(0, p), Lifted(q, 8), poly, 8);
    UpperComesDown(q, poly, 8);
    PairLaws(0, q);
    MixedIs(Feed(0, poly, p), q);
  }

  function Low(c: Register): Octet {
    (c & 0xFF) as Octet
  }

  function High(c: Register): Octet {
    (c >> 8) as Octet
  }

  lemma RunTwo(c: Register, poly: Register, p: Octet, q: Octet)
    ensures Run(c, poly, [p, q]) == Feed(Feed(c, poly, p), poly, q)
  {
    hide Feed;
    assert [p, q][..1] == [p] && [p][..0] == [];
    assert Run(c, poly, [p]) == Feed(c, poly, p);
  }

  /** Burst detection: with a multinomial whose bit 15 is set, two messages of equal length
      that differ, but only within two adjacent octets, never have the same CRC. */
  lemma BurstDetected(poly: Register, head: seq<Octet>, a: seq<Octet>, b: seq<Octet>, tail: seq<Octet>)
    requires poly & 0x8000 != 0 && |a| == |b| <= 2 && a != b
    ensures Run(START, poly, head + a + tail) != Run(START, poly, head + b + tail)
  {
    hide Run, Xor;
    DifferenceAlone(poly, head, a, b, tail);
    ShortKeeps(poly, Difference(a, b));
    DifferenceZero(a, b);
    ZerosKeep(Run(0, poly, Difference(a, b)), poly, Difference(tail, tail));
  }

  /** The registers of two messages differ by what their difference makes of an empty one. */
  lemma DifferenceAlone(poly: Register, head: seq<Octet>, a: seq<Octet>, b: seq<Octet>, tail: seq<Octet>)
    requires |a| == |b|
    ensures Run(START, poly, head + a + tail) == Run(START, poly, head + b + tail) <==>
            Run(Run(0, poly, Difference(a, b)), poly, Difference(tail, tail)) == 0
    ensures AllZero(Difference(tail, tail))
  {
    hide Run, Xor;
    var x, y := head + a + tail, head + b + tail;
    RunLinear(START, START, poly, x, y);
    XorLaws(START, START, 0);
    XorLaws(Run(START, poly, x), Run(START, poly, y), 0);
    Differs(head, a, b, tail);
    var zeros, d, rest := Difference(head, head), Difference(a, b), Difference(tail, tail);
    RunSplit(0, poly, zeros + d, rest);
    RunSplit(0, poly, zeros, d);
    ZerosKeep(0, poly, zeros);
  }

  lemma Differs(head: seq<Octet>, a: seq<Octet>, b: seq<Octet>, tail: seq<Octet>)
    requires |a| == |b|
    ensures Difference(head + a + tail, head + b + tail) ==
            Difference(head, head) + Difference(a, b) + Difference(tail, tail)
    ensures AllZero(Difference(head, head)) && AllZero(Difference(tail, tail))
  {
  }

  lemma DifferenceZero(a: seq<Octet>, b: seq<Octet>)
    requires |a| == |b|
    ensures AllZero(Difference(a, b)) ==> a == b
  {
    if AllZero(Difference(a, b)) {
      forall k | 0 <= k < |a| ensures a[k] == b[k] {
        assert Difference(a, b)[k] == 0;
      }
    }
  }

  /** One or two octets that are not all zero do not leave the register empty. */
  lemma ShortKeeps(poly: Register, d: seq<Octet>)
    requires poly & 0x8000 != 0 && |d| <= 2
    ensures AllZero(d) || Run(0, poly, d) != 0
  {
    hide Feed, Shifts, Pair, Mixed;
    if |d| == 1 && d[0] != 0 {
      assert d[..0] == [];
      PairLaws(d[0], 0);
      OneKeeps(poly, d[0]);
    } else if |d| == 2 && !AllZero(d) {
      assert d == [d[0], d[1]];
      RunTwo(0, poly, d[0], d[1]);
      TwoOctets(d[0], d[1], poly);
      PairLaws(d[0], d[1]);
      ShiftsKeep(Pair(d[0], d[1]), poly, 8);
      ShiftsKeep(Shifts(Pair(d[0], d[1]), poly, 8), poly, 8);
    }
  }

  lemma OneKeeps(poly: Register, p: Octet)
    requires poly & 0x8000 != 0 && p != 0
    ensures Feed(0, poly, p) != 0
  {
    assert Mixed(0, p) != 0;
    hide Shifts, Mixed;
    ShiftsKeep(Mixed(0, p), poly, 8);
  }

  /** The bit is needed: with any multinomial that lacks it, some change within two adjacent
      octets, anywhere in any message, goes unseen. */
  lemma BurstMissed(poly: Register, head: seq<Octet>, tail: seq<Octet>) returns (a: seq<Octet>, b: seq<Octet>)
    requires poly & 0x8000 == 0
    ensures |a| == |b| == 2 && a != b
    ensures Run(START, poly, head + a + tail) == Run(START, poly, head + b + tail)
  {
    hide Run, Feed, Shifts, Shift, Low, High, Lost;
    var p, q := Low(Lost(poly)), High(Lost(poly));
    a, b := [p, q], [0, 0];
    LostPair(poly);
    DifferenceAlone(poly, head, a, b, tail);
    assert Difference(a, b) == [p, q];
    RunTwo(0, poly, p, q);
    TwoOctets(p, q, poly);
    ShiftsZero(poly, 8);
    ZerosKeep(0, poly, Difference(tail, tail));
  }

  /** A register that one shift empties. */
  function Lost(poly: Register): Register {
    (poly << 1) | 1
  }

  lemma LostPair(poly: Register)
    requires poly & 0x8000 == 0
    ensures var p, q := Low(Lost(poly)), High(Lost(poly));
            Shifts(Pair(p, q), poly, 8) == 0 && p != 0 && p ^ 0 == p && q ^ 0 == q
  {
    LostAtOnce(poly);
    PairOfHalves(Lost(poly));
    LowBit(poly);
    hide Shift, Pair, Lost, Low, High;
    LostThen(Lost(poly), poly, 8);
  }

  lemma PairOfHalves(c: Register)
    ensures Pair(Low(c), High(c)) == c
  {
  }

  lemma LowBit(poly: Register)
    ensures Low(Lost(poly)) != 0
  {
  }

  lemma LostAtOnce(poly: Register)
    requires poly & 0x8000 == 0
    ensures Shift(Lost(poly), poly) == 0
  {
    assert Half(Lost(poly)) == poly && Odd(Lost(poly));
    hide Half, Odd, Xor, Lost;
    XorZero(poly, poly);
  }

  lemma {:induction false} LostThen(c: Register, poly: Register, n: nat)
    requires Shift(c, poly) == 0 && n > 0
    ensures Shifts(c, poly, n) == 0
  {
    if n == 1 {
      assert Shifts(c, poly, 0) == c;
    } else {
      LostThen(c, poly, n - 1);
      assert Shift(0, poly) == 0;
    }
  }

  // ----- appending the CRC

  lemma HalvesCancel(c: Register)
    ensures Mixed(c, Low(c)) == Lifted(High(c), 8) && Mixed(Lifted(High(c), 0), High(c)) == 0
  {
  }

  /** Residue: with any multinomial, a message followed by its CRC, low octet first, has CRC 0. */
  lemma ResidueIsZero(poly: Register, data: seq<Octet>)
    ensures var c := Run(START, poly, data); Run(START, poly, data + [Low(c), High(c)]) == 0
  {
    hide Run, Shifts, Mixed, Lifted, Low, High;
    var c := Run(START, poly, data);
    RunSplit(START, poly, data, [Low(c), High(c)]);
    RunTwo(c, poly, Low(c), High(c));
    HalvesCancel(c);
    UpperComesDown(High(c), poly, 8);
    ShiftsZero(poly, 8);
  }
}
