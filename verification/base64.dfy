/** Base64 (section 4 of RFC 4648). Octets are regrouped into six-bit values and back; the
    code's shifts and ors of disjoint bits are written as products and sums. */
module Base64 {
  import opened Bytes

  type Six = v: int | 0 <= v < 64

  const PAD: byte := 61

  // ----- the alphabet

  /** base64en. */
  function Letter(v: Six): byte {
    if v < 26 then v + 65 else if v < 52 then v + 71 else if v < 62 then v - 4 else if v == 62 then 43 else 47
  }

  /** base64de, with None for a character outside the alphabet. */
  function Value(c: byte): Option<Six> {
    if 65 <= c <= 90 then Some(c - 65) else if 97 <= c <= 122 then Some(c - 71) else if IsDigit(c) then Some(c + 4)
    else if c == 43 then Some(62) else if c == 47 then Some(63) else None
  }

  /** The 64 characters of table 1 of RFC 4648, eight to a row. */
  const TABLE: seq<string> :=
    ["ABCDEFGH", "IJKLMNOP", "QRSTUVWX", "YZabcdef", "ghijklmn", "opqrstuv", "wxyz0123", "456789+/"]

  /** A value's letter is the character at that place of the table. */
  lemma LetterInTable(v: Six)
    ensures |TABLE| == 8 && |TABLE[v / 8]| == 8 && Letter(v) == TABLE[v / 8][v % 8] as int
  {
    var k := v / 8;
    assert k == 0 || k == 1 || k == 2 || k == 3 || k == 4 || k == 5 || k == 6 || k == 7;
    RowOfTable(k, TABLE[k]);
  }

  lemma RowOfTable(k: nat, row: string)
    requires k < 8 && row == TABLE[k]
    ensures |row| == 8 && forall j :: 0 <= j < 8 ==> row[j] as int == Letter(8 * k + j)
  {
    if k == 0 {
    } else if k == 1 {
    } else if k == 2 {
    } else if k == 3 {
    } else if k == 4 {
    } else if k == 5 {
    } else if k == 6 {
    }
  }

  /** A character has a value exactly if it is the letter of one, and then that value. */
  lemma ValueIsPlace(c: byte)
    ensures forall v: Six :: Value(c) == Some(v) <==> Letter(v) == c
  {
  }

  function Letters(vs: seq<Six>): (s: Bytes)
    ensures |s| == |vs|
  {
    seq(|vs|, i requires 0 <= i < |vs| => Letter(vs[i]))
  }

  lemma ValueOfLetter(v: Six)
    ensures Value(Letter(v)) == Some(v) && Letter(v) != PAD
  {
  }

  // ----- the standard's definition: groups of 24 bits

  /** The four values of three octets taken as one number of 24 bits. */
  function Quad(a: byte, b: byte, c: byte): (vs: seq<Six>)
    ensures |vs| == 4
  {
    var n := a as int * 65536 + b as int * 256 + c as int;
    [n / 262144, n / 4096 % 64, n / 64 % 64, n % 64]
  }

  /** The values of a message; a last group that is short is filled with zero bits, and only
      the values that hold some of its bits are kept. */
  function Sixes(s: Bytes): seq<Six> {
    if |s| >= 3 then Quad(s[0], s[1], s[2]) + Sixes(s[3..])
    else if |s| == 2 then Quad(s[0], s[1], 0)[..3]
    else if |s| == 1 then Quad(s[0], 0, 0)[..2]
    else []
  }

  function Padding(n: nat): Bytes {
    if n % 3 == 0 then [] else if n % 3 == 1 then [PAD, PAD] else [PAD]
  }

  /** The encoding of a message. */
  function Encoding(s: Bytes): Bytes {
    Letters(Sixes(s)) + Padding(|s|)
  }

  lemma {:induction false} EncodingLength(s: Bytes)
    ensures |Encoding(s)| == Size(|s|)
    decreases |s|
  {
    hide Quad, Letter;
    if |s| >= 3 {
      EncodingLength(s[3..]);
      ThreeOn(|s| - 3);
    }
  }

  lemma ThreeOn(n: nat)
    ensures (n + 3) % 3 == n % 3 && (n + 3 + 2) / 3 == (n + 2) / 3 + 1
  {
  }

  // ----- encoding, octet by octet

  function First(a: byte): Six {
    a / 4
  }

  function Second(a: byte, b: byte): Six {
    a as int % 4 * 16 + b as int / 16
  }

  function Third(b: byte, c: byte): Six {
    b as int % 16 * 4 + c as int / 64
  }

  function Fourth(c: byte): Six {
    c % 64
  }

  lemma QuadIs(a: byte, b: byte, c: byte)
    ensures Quad(a, b, c) == [First(a), Second(a, b), Third(b, c), Fourth(c)]
  {
    hide Quad;
    QuadOf(a, b, c, a / 4, a % 4, b / 16, b % 16, c / 64, c % 64);
  }

  lemma QuadOf(a: byte, b: byte, c: byte, a1: nat, a0: nat, b1: nat, b0: nat, c1: nat, c0: nat)
    requires a == 4 * a1 + a0 && b == 16 * b1 + b0 && c == 64 * c1 + c0
    requires a1 < 64 && a0 < 4 && b1 < 16 && b0 < 16 && c1 < 4 && c0 < 64
    ensures Quad(a, b, c) == [a1, a0 * 16 + b1, b0 * 4 + c1, c0]
  {
    BitGroups(a1, a0, b1, b0, c1, c0);
  }

  lemma BitGroups(a1: nat, a0: nat, b1: nat, b0: nat, c1: nat, c0: nat)
    requires a1 < 64 && a0 < 4 && b1 < 16 && b0 < 16 && c1 < 4 && c0 < 64
    ensures var n := a1 * 262144 + a0 * 65536 + b1 * 4096 + b0 * 256 + c1 * 64 + c0;
            n / 262144 == a1 && n / 4096 % 64 == a0 * 16 + b1 && n / 64 % 64 == b0 * 4 + c1 && n % 64 == c0
  {
    var n := a1 * 262144 + a0 * 65536 + b1 * 4096 + b0 * 256 + c1 * 64 + c0;
    assert n / 4096 == a1 * 64 + (a0 * 16 + b1);
    assert n / 64 == (a1 * 64 + a0 * 16 + b1) * 64 + (b0 * 4 + c1);
  }

  /** The values the code's loop has emitted after the octets `s`. */
  function Emitted(s: Bytes): seq<Six> {
    if s == [] then []
    else
      var n := |s| - 1;
      Emitted(s[..n]) + EmittedFor(Phase3(n), if n > 0 then s[n - 1] else 0, s[n])
  }

  function Phase3(n: nat): nat {
    n % 3
  }

  /** The values emitted for the octet `c`, after the octet `l`. */
  function EmittedFor(phase: nat, l: byte, c: byte): seq<Six> {
    if phase == 0 then [First(c)] else if phase == 1 then [Second(l, c)] else [Third(l, c), Fourth(c)]
  }

  /** The value the code adds after its loop. */
  function Rest(s: Bytes): seq<Six> {
    if |s| % 3 == 0 then [] else if |s| % 3 == 1 then [Second(s[|s| - 1], 0)] else [Third(s[|s| - 1], 0)]
  }

  lemma {:induction false} EmittedSplit(a: Bytes, b: Bytes)
    requires Phase3(|a|) == 0
    ensures Emitted(a + b) == Emitted(a) + Emitted(b)
    decreases |b|
  {
    hide EmittedFor, Phase3, Emitted;
    if b == [] {
      EmittedNone();
      assert a + b == a && Emitted(a) + [] == Emitted(a);
    } else {
      var n, whole := |b| - 1, a + b;
      assert whole[..|a| + n] == a + b[..n] && whole[|a| + n] == b[n] && (n > 0 ==> whole[|a| + n - 1] == b[n - 1]);
      EmittedLast(whole);
      EmittedLast(b);
      SamePhase(|a|, n);
      EmittedSplit(a, b[..n]);
      FirstOfThree(if |a| + n > 0 then whole[|a| + n - 1] else 0, if n > 0 then b[n - 1] else 0, b[n]);
    }
  }

  lemma EmittedLast(s: Bytes)
    requires s != []
    ensures var n := |s| - 1;
            Emitted(s) == Emitted(s[..n]) + EmittedFor(Phase3(n), if n > 0 then s[n - 1] else 0, s[n])
  {
    hide EmittedFor, Phase3;
  }

  lemma SamePhase(a: nat, n: nat)
    requires Phase3(a) == 0
    ensures Phase3(a + n) == Phase3(n) && Phase3(0) == 0
  {
  }

  lemma FirstOfThree(k: byte, l: byte, c: byte)
    ensures EmittedFor(0, k, c) == EmittedFor(0, l, c)
  {
  }

  lemma ShortEmitted(a: byte, b: byte, c: byte)
    ensures Emitted([a]) == [First(a)] && Emitted([a, b]) == [First(a), Second(a, b)]
    ensures Emitted([a, b, c]) == [First(a), Second(a, b), Third(b, c), Fourth(c)]
  {
    hide First, Second, Third, Fourth;
    assert [a][..0] == [] && [a, b][..1] == [a] && [a, b, c][..2] == [a, b];
    assert Emitted([a]) == [First(a)];
    assert Emitted([a, b]) == [First(a)] + [Second(a, b)];
  }

  /** The octet by octet form is the standard's. */
  lemma {:induction false} EmittedIsSixes(s: Bytes)
    ensures Emitted(s) + Rest(s) == Sixes(s)
    decreases |s|
  {
    hide First, Second, Third, Fourth, Quad, Emitted;
    if |s| >= 3 {
      var head, tail := s[..3], s[3..];
      assert s == head + tail && head == [s[0], s[1], s[2]];
      EmittedSplit(head, tail);
      ShortEmitted(s[0], s[1], s[2]);
      QuadIs(s[0], s[1], s[2]);
      EmittedIsSixes(tail);
      RestOfTail(s);
      assert Emitted(head) + Emitted(tail) + Rest(tail) == Emitted(head) + (Emitted(tail) + Rest(tail));
    } else if |s| == 2 {
      assert s == [s[0], s[1]];
      ShortEmitted(s[0], s[1], 0);
      QuadIs(s[0], s[1], 0);
    } else if |s| == 1 {
      assert s == [s[0]];
      ShortEmitted(s[0], 0, 0);
      QuadIs(s[0], 0, 0);
    } else {
      EmittedNone();
    }
  }

  lemma EmittedNone()
    ensures Emitted([]) == []
  {
  }

  lemma {:induction false} RestOfTail(s: Bytes)
    requires |s| >= 3
    ensures Rest(s) == Rest(s[3..])
  {
    hide Second, Third;
    ThreeOn(|s| - 3);
  }

  // ----- decoding

  /** The octets that the values complete, four values giving three. */
  function Octets(vs: seq<Six>): Bytes {
    if vs == [] then []
    else
      var k := |vs| - 1;
      Octets(vs[..k]) + Completed(Phase4(k), if k > 0 then vs[k - 1] else 0, vs[k])
  }

  function Phase4(n: nat): nat {
    n % 4
  }

  /** The octet that value `v` completes after value `u`, if any. */
  function Completed(phase: nat, u: Six, v: Six): Bytes {
    if phase == 0 then [] else if phase == 1 then [OctetA(u, v)] else if phase == 2 then [OctetB(u, v)]
      else [OctetC(u, v)]
  }

  // A value's upper bits, moved to the top of an octet, and its lower bits.

  function Top6(v: Six): byte { v as int * 4 }
  function Top4(v: Six): byte { v as int % 16 * 16 }
  function Top2(v: Six): byte { v as int % 4 * 64 }
  function Low2(v: Six): byte { v / 16 }
  function Low4(v: Six): byte { v / 4 }

  function OctetA(u: Six, v: Six): byte {
    Top6(u) + Low2(v)
  }

  function OctetB(u: Six, v: Six): byte {
    Top4(u) + Low4(v)
  }

  function OctetC(u: Six, v: Six): byte {
    Top2(u) + v
  }

  /** What the code has already put into the octet not yet complete. */
  function Begun(vs: seq<Six>): byte {
    if vs == [] then 0 else BegunBy(Phase4(|vs|), vs[|vs| - 1])
  }

  function BegunBy(phase: nat, v: Six): byte {
    if phase == 1 then Top6(v) else if phase == 2 then Top4(v) else if phase == 3 then Top2(v) else 0
  }

  lemma {:induction false} OctetsSplit(a: seq<Six>, b: seq<Six>)
    requires Phase4(|a|) == 0
    ensures Octets(a + b) == Octets(a) + Octets(b)
    decreases |b|
  {
    hide Completed, Phase4, Octets;
    if b == [] {
      NoOctets();
      assert a + b == a && Octets(a) + [] == Octets(a);
    } else {
      var k, whole := |b| - 1, a + b;
      assert whole[..|a| + k] == a + b[..k] && whole[|a| + k] == b[k] && (k > 0 ==> whole[|a| + k - 1] == b[k - 1]);
      OctetsLast(whole);
      OctetsLast(b);
      FourPhase(|a|, k);
      OctetsSplit(a, b[..k]);
      FirstOfFour(if |a| + k > 0 then whole[|a| + k - 1] else 0, if k > 0 then b[k - 1] else 0, b[k]);
    }
  }

  lemma OctetsLast(vs: seq<Six>)
    requires vs != []
    ensures var k := |vs| - 1;
            Octets(vs) == Octets(vs[..k]) + Completed(Phase4(k), if k > 0 then vs[k - 1] else 0, vs[k])
  {
    hide Completed, Phase4;
  }

  lemma FirstOfFour(t: Six, u: Six, v: Six)
    ensures Completed(0, t, v) == Completed(0, u, v)
  {
  }

  lemma FourPhase(a: nat, k: nat)
    requires Phase4(a) == 0
    ensures Phase4(a + k) == Phase4(k) && Phase4(0) == 0
  {
  }

  lemma FourOctets(a: byte, b: byte, c: byte)
    ensures Octets(Quad(a, b, c)) == [a, b, c]
    ensures Octets(Quad(a, b, c)[..3]) == [a, b]
    ensures Octets(Quad(a, b, c)[..2]) == [a]
  {
    QuadIs(a, b, c);
    Regrouped(a, b, c);
    UpToFour(First(a), Second(a, b), Third(b, c), Fourth(c));
    hide Quad, Octets, First, Second, Third, Fourth, OctetA, OctetB, OctetC;
    var vs := Quad(a, b, c);
    assert vs[..3] == [First(a), Second(a, b), Third(b, c)] && vs[..2] == [First(a), Second(a, b)];
  }

  lemma Regrouped(a: byte, b: byte, c: byte)
    ensures OctetA(First(a), Second(a, b)) == a && OctetB(Second(a, b), Third(b, c)) == b &&
            OctetC(Third(b, c), Fourth(c)) == c
  {
  }

  lemma UpToFour(t: Six, u: Six, v: Six, w: Six)
    ensures Octets([t, u]) == [OctetA(t, u)] && Octets([t, u, v]) == [OctetA(t, u), OctetB(u, v)]
    ensures Octets([t, u, v, w]) == [OctetA(t, u), OctetB(u, v), OctetC(v, w)]
  {
    hide OctetA, OctetB, OctetC;
    assert [t][..0] == [] && [t, u][..1] == [t] && [t, u, v][..2] == [t, u] && [t, u, v, w][..3] == [t, u, v];
    assert Octets([t]) == [];
    assert Octets([t, u]) == [OctetA(t, u)];
    assert Octets([t, u, v]) == [OctetA(t, u)] + [OctetB(u, v)];
  }

  /** Regrouping into values and back gives the octets again. */
  lemma {:induction false} OctetsOfSixes(s: Bytes)
    ensures Octets(Sixes(s)) == s
    decreases |s|
  {
    hide Quad, Octets;
    if |s| >= 3 {
      OctetsSplit(Quad(s[0], s[1], s[2]), Sixes(s[3..]));
      FourOctets(s[0], s[1], s[2]);
      OctetsOfSixes(s[3..]);
      assert s == [s[0], s[1], s[2]] + s[3..];
    } else if |s| == 2 {
      FourOctets(s[0], s[1], 0);
    } else if |s| == 1 {
      FourOctets(s[0], 0, 0);
    } else {
      NoOctets();
    }
  }

  lemma NoOctets()
    ensures Octets([]) == []
  {
  }

  // ----- the code

  /** How many values an unsigned int has. */
  const WORD: nat := 0x1_0000_0000

  /** What an unsigned int makes of a number. */
  function Wrapped(n: nat): nat {
    n % WORD
  }

  lemma Wraps(a: nat, b: nat)
    ensures Wrapped(a) <= a && Wrapped(a) < WORD && (a < WORD ==> Wrapped(a) == a)
    ensures Wrapped(Wrapped(a) + b) == Wrapped(a + b) <= a + b
  {
  }

  /** The characters of an encoding of `n` octets. */
  function Size(n: nat): nat {
    (n + 2) / 3 * 4
  }

  /** `out[j++] = c`, where `j` is an unsigned int. */
  method Put(output: array<byte>, j: nat, c: byte) returns (next: nat)
    requires j < output.Length
    modifies output
    ensures next == Wrapped(j + 1)
    ensures j + 1 < WORD ==> next == j + 1 && output[..next] == old(output[..j]) + [c]
    ensures forall k :: 0 <= k < output.Length && k != j ==> output[k] == old(output[k])
  {
    output[j] := c;
    next := Wrapped(j + 1);
  }

  lemma {:induction false} LettersMore(vs: seq<Six>, ws: seq<Six>)
    ensures Letters(vs + ws) == Letters(vs) + Letters(ws)
  {
    hide Letter;
  }

  lemma LettersShort(v: Six, w: Six)
    ensures Letters([]) == [] && Letters([v]) == [Letter(v)] && Letters([v, w]) == [Letter(v)] + [Letter(w)]
  {
    hide Letter;
  }

  /** base64_encode: the encoding and a terminating NUL, and nothing beyond, as long as the
      unsigned int that counts the characters does not wrap, for which it returns the count of
      characters modulo 2^32. */
  method Encode(input: Bytes, output: array<byte>) returns (j: nat)
    requires |input| < WORD && output.Length >= Size(|input|) + 1
    modifies output
    ensures j == Wrapped(Size(|input|))
    ensures Size(|input|) < WORD ==>
              output[..j] == Encoding(input) && output[j] == NUL &&
              forall k :: j < k < output.Length ==> output[k] == old(output[k])
  {
    hide Emitted, Rest, Sixes, Letters, Size, Wrapped, Phase3, PadLength;
    EncodingLength(input);
    EmittedIsSixes(input);
    LettersMore(Emitted(input), Rest(input));
    var phase, l;
    ghost var emitted;
    j, phase, l, emitted := EmitAll(input, output);
    Wraps(emitted, PadLength(phase));
    Wraps(Size(|input|), 0);
    j := Pad(input, phase, l, output, j);
    output[j] := NUL;
  }

  /** The loop of base64_encode. */
  method EmitAll(input: Bytes, output: array<byte>) returns (j: nat, phase: nat, l: byte, ghost emitted: nat)
    requires |input| < WORD && output.Length >= Size(|input|) + 1
    modifies output
    ensures phase == |input| % 3 && l == (if |input| > 0 then input[|input| - 1] else 0)
    ensures emitted + PadLength(phase) == Size(|input|) && j == Wrapped(emitted) && j <= emitted
    ensures Size(|input|) < WORD ==> output[..j] == Letters(Emitted(input)) && Untouched(output, j, old(output[..]))
  {
    hide Emitted, EmittedFor, Sixes, Letter, Letters, Size, Wrapped, PadLength;
    EmittedNone();
    LettersShort(0, 0);
    Wraps(0, 0);
    j, phase, l := 0, 0, 0;
    var i := 0;
    ghost var q := 0;
    assert input[..0] == [];
    while i < |input|
      invariant 0 <= i <= |input| && i == 3 * q + phase && 0 <= phase < 3 && l == if i > 0 then input[i - 1] else 0
      invariant j == Wrapped(4 * q + phase) && j <= 4 * q + phase <= Size(|input|)
      invariant Size(|input|) < WORD ==>
                  output[..j] == Letters(Emitted(input[..i])) &&
                  Untouched(output, j, old(output[..]))
    {
      var c := input[i];
      EmittedMore(input, i, q, phase);
      Room(q, phase, |input|);
      LettersMore(Emitted(input[..i]), EmittedFor(phase, l, c));
      Wraps(4 * q + phase, if phase == 2 then 2 else 1);
      j := Emit(phase, l, c, output, j);
      if phase == 2 { phase, q := 0, q + 1; } else { phase := phase + 1; }
      l := c;
      i := i + 1;
    }
    assert input[..|input|] == input;
    Ends(|input|, q, phase);
    emitted := 4 * q + phase;
  }

  /** The switch of base64_encode. */
  method Emit(phase: nat, l: byte, c: byte, output: array<byte>, j: nat) returns (next: nat)
    requires phase < 3 && j < WORD && j + (if phase == 2 then 2 else 1) <= output.Length
    modifies output
    ensures next == Wrapped(j + if phase == 2 then 2 else 1)
    ensures j + (if phase == 2 then 2 else 1) < WORD ==>
              output[..next] == old(output[..j]) + Letters(EmittedFor(phase, l, c)) &&
                Untouched(output, next, old(output[..]))
  {
    hide First, Second, Third, Fourth, Letter, Letters;
    if phase == 0 {
      LettersShort(First(c), 0);
      next := Put(output, j, Letter(First(c)));
    } else if phase == 1 {
      LettersShort(Second(l, c), 0);
      next := Put(output, j, Letter(Second(l, c)));
    } else {
      LettersShort(Third(l, c), Fourth(c));
      next := Put(output, j, Letter(Third(l, c)));
      next := Put(output, next, Letter(Fourth(c)));
    }
  }

  /** The buffer from place `from` on is as it was. */
  ghost predicate Untouched(output: array<byte>, from: nat, was: Bytes)
    reads output
  {
    |was| == output.Length && forall k :: from <= k < output.Length ==> output[k] == was[k]
  }

  function PadLength(phase: nat): nat {
    if phase == 0 then 0 else if phase == 1 then 3 else 2
  }

  /** What base64_encode does after its loop. */
  method Pad(input: Bytes, phase: nat, l: byte, output: array<byte>, j: nat) returns (next: nat)
    requires phase == |input| % 3 && (phase > 0 ==> l == input[|input| - 1])
    requires j < WORD && j + PadLength(phase) <= output.Length
    modifies output
    ensures next == Wrapped(j + PadLength(phase))
    ensures j + PadLength(phase) < WORD ==>
              output[..next] == old(output[..j]) + Letters(Rest(input)) + Padding(|input|) &&
              Untouched(output, next, old(output[..]))
  {
    hide Second, Third, Letter, Letters;
    next := j;
    LettersShort(0, 0);
    if phase == 1 {
      LettersShort(Second(l, 0), 0);
      next := Put(output, next, Letter(Second(l, 0)));
      next := Put(output, next, PAD);
      next := Put(output, next, PAD);
    } else if phase == 2 {
      LettersShort(Third(l, 0), 0);
      next := Put(output, next, Letter(Third(l, 0)));
      next := Put(output, next, PAD);
    }
  }

  lemma {:induction false} EmittedMore(s: Bytes, i: nat, q: nat, phase: nat)
    requires i < |s| && i == 3 * q + phase && phase < 3
    ensures Emitted(s[..i + 1]) == Emitted(s[..i]) +
            EmittedFor(phase, if i > 0 then s[i - 1] else 0, s[i])
  {
    hide First, Second, Third, Fourth;
    assert s[..i + 1][..i] == s[..i] && Phase3(i) == phase;
  }

  lemma Room(q: nat, phase: nat, n: nat)
    requires phase < 3 && 3 * q + phase < n
    ensures 4 * q + phase + (if phase == 2 then 2 else 1) <= Size(n)
  {
  }

  lemma Ends(n: nat, q: nat, phase: nat)
    requires phase < 3 && 3 * q + phase == n
    ensures n % 3 == phase && 4 * q + phase + PadLength(phase) == Size(n)
  {
  }

  // ----- decoding, and back

  /** How many characters come before the first that is not a letter of the alphabet. */
  function Stop(s: Bytes): (k: nat)
    ensures k <= |s| && (forall i :: 0 <= i < k ==> Value(s[i]).Some?) && (k < |s| ==> Value(s[k]).None?)
  {
    if s == [] || Value(s[0]).None? then 0 else 1 + Stop(s[1..])
  }

  function Values(s: Bytes): (vs: seq<Six>)
    requires forall i :: 0 <= i < |s| ==> Value(s[i]).Some?
    ensures |vs| == |s|
  {
    seq(|s|, i requires 0 <= i < |s| => Value(s[i]).value)
  }

  /** base64_decode: gives up with 0 on a length that is no multiple of four, or on a character
      outside the alphabet before the first padding; otherwise writes the octets that the
      characters before it complete. All writes stay within three octets for four characters. */
  method Decode(input: Bytes, output: array<byte>) returns (j: nat)
    requires output.Length >= |input| / 4 * 3
    modifies output
    ensures |input| % 4 != 0 ==> j == 0
    ensures |input| % 4 == 0 ==>
              var k := Stop(input);
              if k < |input| && input[k] != PAD then j == 0
              else j <= output.Length && output[..j] == Octets(Values(input[..k]))
  {
    hide Octets, Value, Top6, Top4, Top2, Low2, Low4, Begun;
    if |input| % 4 != 0 {
      return 0;
    }
    NoOctets();
    j := 0;
    var i := 0;
    ghost var q, phase := 0, 0;
    assert input[..0] == [];
    while i < |input|
      invariant 0 <= i <= |input| && i == 4 * q + phase && 0 <= phase < 4
      invariant forall n :: 0 <= n < i ==> Value(input[n]).Some?
      invariant j == 3 * q + (if phase == 0 then 0 else phase - 1) && j <= output.Length
      invariant output[..j] == Octets(Values(input[..i]))
      invariant phase > 0 ==> j < output.Length && output[j] == Begun(Values(input[..i]))
    {
      if input[i] == PAD {
        PadIsNone();
        StopAt(input, i);
        return;
      }
      if Value(input[i]).None? {
        StopAt(input, i);
        return 0;
      }
      var c := Value(input[i]).value;
      ghost var vs := Values(input[..i]);
      assert Values(input[..i + 1]) == vs + [c];
      Space(|input|, q, phase);
      OctetsMore(vs, c, q, phase);
      j := Complete(i % 4, c, output, j);
      i := i + 1;
      if phase == 3 { q, phase := q + 1, 0; } else { phase := phase + 1; }
    }
    StopAt(input, i);
    assert input[..|input|] == input;
  }

  /** The lower bits that a value adds to an octet under way. */
  function LowerBits(phase: nat, c: Six): byte {
    if phase == 1 then Low2(c) else if phase == 2 then Low4(c) else c
  }

  /** The switch of base64_decode. */
  method Complete(phase: nat, c: Six, output: array<byte>, j: nat) returns (next: nat)
    requires phase < 4 && j < output.Length && (phase == 1 || phase == 2 ==> j + 1 < output.Length)
    requires phase > 0 ==> output[j] as int + LowerBits(phase, c) < 256
    modifies output
    ensures next == if phase == 0 then j else j + 1
    ensures output[..next] == old(output[..j]) +
                              if phase == 0 then [] else [old(output[j]) as int + LowerBits(phase, c)]
    ensures phase == 0 ==> output[next] == Top6(c)
    ensures phase == 1 ==> output[next] == Top4(c)
    ensures phase == 2 ==> output[next] == Top2(c)
  {
    hide Top6, Top4, Top2, Low2, Low4;
    ghost var done := output[..j];
    next := j;
    if phase == 0 {
      output[next] := Top6(c);
    } else if phase == 1 {
      output[next] := output[next] + Low2(c);
      next := next + 1;
      output[next] := Top4(c);
    } else if phase == 2 {
      output[next] := output[next] + Low4(c);
      next := next + 1;
      output[next] := Top2(c);
    } else {
      output[next] := output[next] + c;
      next := next + 1;
    }
    assert output[..next] == done + output[j..next];
  }

  lemma PadIsNone()
    ensures Value(PAD) == None
  {
  }

  lemma {:induction false} StopAt(s: Bytes, i: nat)
    requires i <= |s| && (forall n :: 0 <= n < i ==> Value(s[n]).Some?) && (i < |s| ==> Value(s[i]).None?)
    ensures Stop(s) == i
    decreases i
  {
    hide Value;
    if i > 0 { StopAt(s[1..], i - 1); }
  }

  lemma Space(n: nat, q: nat, phase: nat)
    requires n % 4 == 0 && phase < 4 && 4 * q + phase < n
    ensures 3 * q + 3 <= n / 4 * 3 && (4 * q + phase) % 4 == phase
  {
  }

  /** One more value, in terms of what is begun. */
  lemma {:induction false} OctetsMore(vs: seq<Six>, c: Six, q: nat, phase: nat)
    requires |vs| == 4 * q + phase && phase < 4
    ensures var lower: int := LowerBits(phase, c);
            (phase > 0 ==> Begun(vs) as int + lower < 256) &&
            Octets(vs + [c]) == Octets(vs) + if phase == 0 then [] else [Begun(vs) as int + lower]
    ensures phase == 0 ==> Begun(vs + [c]) == Top6(c)
    ensures phase == 1 ==> Begun(vs + [c]) == Top4(c)
    ensures phase == 2 ==> Begun(vs + [c]) == Top2(c)
  {
    hide Top6, Top4, Top2, Low2, Low4, Phase4, Completed;
    assert (vs + [c])[..|vs|] == vs;
    var u: Six := if vs != [] then vs[|vs| - 1] else 0;
    PhaseOf(q, phase);
    assert Octets(vs + [c]) == Octets(vs) + Completed(phase, u, c);
    CompletedIs(phase, u, c);
  }

  lemma PhaseOf(q: nat, phase: nat)
    requires phase < 4
    ensures Phase4(4 * q + phase) == phase && (phase < 3 ==> Phase4(4 * q + phase + 1) == phase + 1)
  {
  }

  lemma CompletedIs(phase: nat, u: Six, c: Six)
    requires phase < 4
    ensures phase == 0 ==> Completed(phase, u, c) == []
    ensures phase == 1 ==> Top6(u) as int + Low2(c) as int < 256 && Completed(phase, u, c) == [Top6(u) + Low2(c)]
    ensures phase == 2 ==> Top4(u) as int + Low4(c) as int < 256 && Completed(phase, u, c) == [Top4(u) + Low4(c)]
    ensures phase == 3 ==> Top2(u) as int + c as int < 256 && Completed(phase, u, c) == [Top2(u) + c]
  {
    Bits(u, c);
    hide Top6, Top4, Top2, Low2, Low4;
  }

  lemma Bits(u: Six, c: Six)
    ensures Top6(u) as int + Low2(c) as int < 256 && Top4(u) as int + Low4(c) as int < 256 &&
            Top2(u) as int + c as int < 256
  {
  }

  lemma {:induction false} ValuesOfLetters(vs: seq<Six>)
    ensures forall i :: 0 <= i < |vs| ==> Value(Letters(vs)[i]).Some?
    ensures Values(Letters(vs)) == vs
  {
    forall i | 0 <= i < |vs| ensures Value(Letters(vs)[i]) == Some(vs[i]) { ValueOfLetter(vs[i]); }
  }

  /** Round trip: the characters before the padding of an encoding give the message back. With
      the contracts of Encode and Decode: decoding what was encoded returns the message. */
  lemma {:induction false} RoundTrip(s: Bytes)
    ensures var text := Encoding(s);
            var k := Stop(text);
            |text| % 4 == 0 && (k == |text| || text[k] == PAD) && Octets(Values(text[..k])) == s &&
              |s| <= |text| / 4 * 3
  {
    hide Sixes, Octets, Letter, Value, Letters;
    var text, vs := Encoding(s), Sixes(s);
    EncodingLength(s);
    ValuesOfLetters(vs);
    OctetsOfSixes(s);
    PadIsNone();
    assert forall i :: 0 <= i < |vs| ==> text[i] == Letters(vs)[i];
    StopAt(text, |vs|);
    assert text[..|vs|] == Letters(vs);
  }

  /** Encoding into a buffer of the declared size, and decoding the characters into another,
      gives the message back. */
  method EncodeThenDecode(input: Bytes) returns (decoded: Bytes)
    requires Size(|input|) + 1 < WORD
    ensures decoded == input
  {
    hide Encoding, Octets, Values, Stop, Value;
    EncodingLength(input);
    RoundTrip(input);
    var text := new byte[Size(|input|) + 1];
    var n := Encode(input, text);
    var octets := new byte[n / 4 * 3];
    var k := Decode(text[..n], octets);
    decoded := octets[..k];
  }
}
