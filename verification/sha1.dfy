/** SHA-1. The textbook method keeps eighty schedule words (section 6.1 of RFC 3174); the code
    keeps sixteen, overwritten in a circle, and rotates the names of the working words instead
    of their values (section 6.2). */
module Sha1 {
  type Word = bv32

  /** rol; S^n in the standard. */
  function Rol(value: Word, bits: nat): Word
    requires 0 < bits < 32
  {
    (value << bits) | (value >> (32 - bits))
  }

  // ----- the method with eighty words

  datatype Vars = Vars(a: Word, b: Word, c: Word, d: Word, e: Word)

  function Choose(b: Word, c: Word, d: Word): Word {
    (b & c) | (!b & d)
  }

  function Parity(b: Word, c: Word, d: Word): Word {
    b ^ c ^ d
  }

  function Majority(b: Word, c: Word, d: Word): Word {
    (b & c) | (b & d) | (c & d)
  }

  function F(t: nat, b: Word, c: Word, d: Word): Word {
    if t < 20 then Choose(b, c, d) else if t < 40 then Parity(b, c, d) else if t < 60 then Majority(b, c, d)
      else Parity(b, c, d)
  }

  function K(t: nat): Word {
    if t < 20 then 0x5a827999 else if t < 40 then 0x6ed9eba1 else if t < 60 then 0x8f1bbcdc else 0xca62c1d6
  }

  /** Each constant is the integer part of 2^30 times the square root of 2, 3, 5 or 10. */
  lemma KIsRoot(t: nat)
    requires t < 80
    ensures var n := if t < 20 then 2 else if t < 40 then 3 else if t < 60 then 5 else 10;
      var k := K(t) as nat;
      k * k <= n * 0x1000_0000_0000_0000 < (k + 1) * (k + 1)
  {
  }

  /** The word schedule of a block of sixteen words. */
  function W(block: seq<Word>, t: nat): Word
    requires |block| == 16
  {
    if t < 16 then block[t] else Mix(W(block, t - 3), W(block, t - 8), W(block, t - 14), W(block, t - 16))
  }

  /** How a schedule word follows from four before it. */
  function Mix(w3: Word, w8: Word, w14: Word, w16: Word): Word {
    Rol(w3 ^ w8 ^ w14 ^ w16, 1)
  }

  function Schedule(block: seq<Word>): (ws: seq<Word>)
    requires |block| == 16
    ensures |ws| == 80
  {
    seq(80, t requires 0 <= t => W(block, t))
  }

  /** TEMP of step `t`. */
  function Temp(t: nat, v: Vars, w: Word): Word {
    TempSum(Rol(v.a, 5), F(t, v.b, v.c, v.d), v.e, w, K(t))
  }

  function TempSum(r: Word, f: Word, e: Word, w: Word, k: Word): Word {
    r + f + e + w + k
  }

  function Step(v: Vars, t: nat, w: Word): Vars {
    Vars(Temp(t, v, w), v.a, Rol(v.b, 30), v.c, v.d)
  }

  /** The working words after `t` steps. */
  function Rounds(h: Vars, ws: seq<Word>, t: nat): Vars
    requires t <= |ws|
  {
    if t == 0 then h else Step(Rounds(h, ws, t - 1), t - 1, ws[t - 1])
  }

  /** What one block makes of the digest. */
  function Compress(h: Vars, block: seq<Word>): Vars
    requires |block| == 16
  {
    Plus(h, Rounds(h, Schedule(block), 80))
  }

  function Plus(h: Vars, v: Vars): Vars {
    Vars(Add(h.a, v.a), Add(h.b, v.b), Add(h.c, v.c), Add(h.d, v.d), Add(h.e, v.e))
  }

  function Add(x: Word, y: Word): Word {
    x + y
  }

  // ----- sixteen words are enough

  ghost predicate IsSchedule(ws: seq<Word>) {
    |ws| == 80 && forall t :: 16 <= t < 80 ==> ws[t] == Mix(ws[t - 3], ws[t - 8], ws[t - 14], ws[t - 16])
  }

  /** Before step `t` the block holds the sixteen words up to that step, each at its place in
      the circle. */
  ghost predicate Holds(block: seq<Word>, ws: seq<Word>, t: nat) {
    |block| == 16 && |ws| == 80 &&
    var from := if t < 16 then 0 else t - 16;
    forall j :: from <= j < from + 16 && j < 80 ==> block[j % 16] == ws[j]
  }

  lemma ScheduleIs(block: seq<Word>)
    requires |block| == 16
    ensures IsSchedule(Schedule(block)) && Holds(block, Schedule(block), 0)
  {
    hide Mix;
  }

  /** blk gives the next word of the schedule. */
  lemma NextWord(block: seq<Word>, ws: seq<Word>, t: nat)
    requires |block| == 16 && |ws| == 80 && IsSchedule(ws) && Holds(block, ws, t) && 16 <= t < 80
    ensures var i := t % 16; Mix(block[(i + 13) % 16], block[(i + 8) % 16], block[(i + 2) % 16], block[i]) == ws[t]
  {
    hide Mix, IsSchedule, Holds;
    Back(block, ws, t, 3);
    Back(block, ws, t, 8);
    Back(block, ws, t, 14);
    Back(block, ws, t, 16);
    Recurrence(ws, t);
  }

  lemma Recurrence(ws: seq<Word>, t: nat)
    requires |ws| == 80 && IsSchedule(ws) && 16 <= t < 80
    ensures ws[t] == Mix(ws[t - 3], ws[t - 8], ws[t - 14], ws[t - 16])
  {
    hide Mix;
  }

  /** `k` words back in the schedule is `16 - k` places on in the circle. */
  lemma Back(block: seq<Word>, ws: seq<Word>, t: nat, k: nat)
    requires |block| == 16 && |ws| == 80 && Holds(block, ws, t) && 16 <= t < 80 && 0 < k <= 16
    ensures block[(t % 16 + (16 - k)) % 16] == ws[t - k]
  {
    assert (t % 16 + (16 - k)) % 16 == (t - k) % 16;
    InPlace(block, ws, t, t - k);
  }

  lemma InPlace(block: seq<Word>, ws: seq<Word>, t: nat, j: nat)
    requires Holds(block, ws, t) && 16 <= t < 80 && t - 16 <= j < t
    ensures block[j % 16] == ws[j]
  {
  }

  /** Storing it drops the one word that is not needed again. */
  lemma NextHolds(block: seq<Word>, ws: seq<Word>, t: nat)
    requires Holds(block, ws, t) && 16 <= t < 80
    ensures Holds(block[t % 16 := ws[t]], ws, t + 1)
  {
    var next := block[t % 16 := ws[t]];
    forall j | t - 15 <= j < t + 1 ensures next[j % 16] == ws[j] {
      if j < t {
        Apart(j, t);
        InPlace(block, ws, t, j);
      }
    }
  }

  lemma Apart(j: nat, t: nat)
    requires j < t < j + 16
    ensures j % 16 != t % 16
  {
  }

  lemma StillHolds(block: seq<Word>, ws: seq<Word>, t: nat)
    requires Holds(block, ws, t) && t < 16
    ensures Holds(block, ws, t + 1) && block[t] == ws[t]
  {
    assert t % 16 == t;
  }

  // What R0 to R4 add up. The code's forms of the two boolean functions take an operation
  // less than the standard's; the order of the sum does not matter.

  /** `z += ...`, in the code's order. */
  function CodeSum(z: Word, f: Word, w: Word, k: Word, r: Word): Word {
    z + (f + w + k + r)
  }

  function ChooseSum(v: Word, w: Word, x: Word, y: Word, z: Word, word: Word): Word {
    CodeSum(z, (w & (x ^ y)) ^ y, word, 0x5a827999, Rol(v, 5))
  }

  function ParitySum(v: Word, w: Word, x: Word, y: Word, z: Word, word: Word, k: Word): Word {
    CodeSum(z, w ^ x ^ y, word, k, Rol(v, 5))
  }

  function MajoritySum(v: Word, w: Word, x: Word, y: Word, z: Word, word: Word): Word {
    CodeSum(z, ((w | x) & y) | (w & x), word, 0x8f1bbcdc, Rol(v, 5))
  }

  lemma ChooseIs(w: Word, x: Word, y: Word)
    ensures (w & (x ^ y)) ^ y == Choose(w, x, y)
  {
  }

  lemma MajorityIs(w: Word, x: Word, y: Word)
    ensures ((w | x) & y) | (w & x) == Majority(w, x, y)
  {
  }

  lemma SumIs(z: Word, f: Word, w: Word, k: Word, r: Word)
    ensures CodeSum(z, f, w, k, r) == TempSum(r, f, z, w, k)
  {
  }

  lemma ChooseTemp(t: nat, v: Word, w: Word, x: Word, y: Word, z: Word, word: Word)
    requires t < 20
    ensures Temp(t, Vars(v, w, x, y, z), word) == ChooseSum(v, w, x, y, z, word)
  {
    hide Rol, Choose, CodeSum, TempSum;
    ChooseIs(w, x, y);
    SumIs(z, Choose(w, x, y), word, 0x5a827999, Rol(v, 5));
  }

  lemma ParityTemp(t: nat, v: Word, w: Word, x: Word, y: Word, z: Word, word: Word)
    requires 20 <= t < 40 || t >= 60
    ensures Temp(t, Vars(v, w, x, y, z), word) == ParitySum(v, w, x, y, z, word, K(t))
  {
    hide Rol, Choose, Majority, K, CodeSum, TempSum;
    SumIs(z, Parity(w, x, y), word, K(t), Rol(v, 5));
  }

  lemma MajorityTemp(t: nat, v: Word, w: Word, x: Word, y: Word, z: Word, word: Word)
    requires 40 <= t < 60
    ensures Temp(t, Vars(v, w, x, y, z), word) == MajoritySum(v, w, x, y, z, word)
  {
    hide Rol, Choose, Majority, CodeSum, TempSum;
    MajorityIs(w, x, y);
    SumIs(z, Majority(w, x, y), word, 0x8f1bbcdc, Rol(v, 5));
  }

  // ----- the code

  /** blk. */
  method Blk(block: array<Word>, i: nat) returns (r: Word)
    requires block.Length == 16 && i < 16
    ensures r == Mix(block[(i + 13) % 16], block[(i + 8) % 16], block[(i + 2) % 16], block[i])
  {
    r := Rol(block[(i + 13) % 16] ^ block[(i + 8) % 16] ^ block[(i + 2) % 16] ^ block[i], 1);
  }

  /** R0: a step whose word is still in place. With the names passed in the order of step `t`,
      the new names in the order of step `t + 1` are z', v, w', x, y. */
  method R0(block: array<Word>, v: Word, w: Word, x: Word, y: Word, z: Word, i: nat, ghost h: Vars,
          ghost ws: seq<Word>, ghost t: nat)
    returns (w': Word, z': Word)
    requires block.Length == 16 && |ws| == 80 && i == t < 16 && Holds(block[..], ws, t) &&
             Rounds(h, ws, t) == Vars(v, w, x, y, z)
    ensures Holds(block[..], ws, t + 1) && Rounds(h, ws, t + 1) == Vars(z', v, w', x, y)
  {
    hide Rol, Temp, ChooseSum;
    StillHolds(block[..], ws, t);
    z' := ChooseSum(v, w, x, y, z, block[i]);
    w' := Rol(w, 30);
    ChooseTemp(t, v, w, x, y, z, ws[t]);
  }

  /** The word of step `t`, stored over the one of step `t - 16`. */
  method Refresh(block: array<Word>, i: nat, ghost ws: seq<Word>, ghost t: nat)
    requires block.Length == 16 && |ws| == 80 && 16 <= t < 80 && i == t % 16 && Holds(block[..], ws, t) &&
             IsSchedule(ws)
    modifies block
    ensures Holds(block[..], ws, t + 1) && block[i] == ws[t]
  {
    hide Mix;
    NextWord(block[..], ws, t);
    NextHolds(block[..], ws, t);
    var word := Blk(block, i);
    block[i] := word;
    assert block[..] == old(block[..])[i := ws[t]];
  }

  method R1(block: array<Word>, v: Word, w: Word, x: Word, y: Word, z: Word, i: nat, ghost h: Vars,
          ghost ws: seq<Word>, ghost t: nat)
    returns (w': Word, z': Word)
    requires block.Length == 16 && |ws| == 80 && 16 <= t < 20 && i == t % 16 && Holds(block[..], ws, t) &&
             IsSchedule(ws)
    requires Rounds(h, ws, t) == Vars(v, w, x, y, z)
    modifies block
    ensures Holds(block[..], ws, t + 1) && Rounds(h, ws, t + 1) == Vars(z', v, w', x, y)
  {
    hide Rol, Temp, ChooseSum, Holds, IsSchedule;
    Refresh(block, i, ws, t);
    z' := ChooseSum(v, w, x, y, z, block[i]);
    w' := Rol(w, 30);
    ChooseTemp(t, v, w, x, y, z, ws[t]);
  }

  method R2(block: array<Word>, v: Word, w: Word, x: Word, y: Word, z: Word, i: nat, ghost h: Vars,
          ghost ws: seq<Word>, ghost t: nat)
    returns (w': Word, z': Word)
    requires block.Length == 16 && |ws| == 80 && 20 <= t < 40 && i == t % 16 && Holds(block[..], ws, t) &&
             IsSchedule(ws)
    requires Rounds(h, ws, t) == Vars(v, w, x, y, z)
    modifies block
    ensures Holds(block[..], ws, t + 1) && Rounds(h, ws, t + 1) == Vars(z', v, w', x, y)
  {
    hide Rol, Temp, ParitySum, Holds, IsSchedule;
    Refresh(block, i, ws, t);
    z' := ParitySum(v, w, x, y, z, block[i], 0x6ed9eba1);
    w' := Rol(w, 30);
    ParityTemp(t, v, w, x, y, z, ws[t]);
  }

  method R3(block: array<Word>, v: Word, w: Word, x: Word, y: Word, z: Word, i: nat, ghost h: Vars,
          ghost ws: seq<Word>, ghost t: nat)
    returns (w': Word, z': Word)
    requires block.Length == 16 && |ws| == 80 && 40 <= t < 60 && i == t % 16 && Holds(block[..], ws, t) &&
             IsSchedule(ws)
    requires Rounds(h, ws, t) == Vars(v, w, x, y, z)
    modifies block
    ensures Holds(block[..], ws, t + 1) && Rounds(h, ws, t + 1) == Vars(z', v, w', x, y)
  {
    hide Rol, Temp, MajoritySum, Holds, IsSchedule;
    Refresh(block, i, ws, t);
    z' := MajoritySum(v, w, x, y, z, block[i]);
    w' := Rol(w, 30);
    MajorityTemp(t, v, w, x, y, z, ws[t]);
  }

  method R4(block: array<Word>, v: Word, w: Word, x: Word, y: Word, z: Word, i: nat, ghost h: Vars,
          ghost ws: seq<Word>, ghost t: nat)
    returns (w': Word, z': Word)
    requires block.Length == 16 && |ws| == 80 && 60 <= t < 80 && i == t % 16 && Holds(block[..], ws, t) &&
             IsSchedule(ws)
    requires Rounds(h, ws, t) == Vars(v, w, x, y, z)
    modifies block
    ensures Holds(block[..], ws, t + 1) && Rounds(h, ws, t + 1) == Vars(z', v, w', x, y)
  {
    hide Rol, Temp, ParitySum, Holds, IsSchedule;
    Refresh(block, i, ws, t);
    z' := ParitySum(v, w, x, y, z, block[i], 0xca62c1d6);
    w' := Rol(w, 30);
    ParityTemp(t, v, w, x, y, z, ws[t]);
  }

  /** Operations 0 to 19 of transform. */
  method FirstRound(block: array<Word>, a0: Word, b0: Word, c0: Word, d0: Word, e0: Word, ghost h: Vars,
          ghost ws: seq<Word>)
    returns (a: Word, b: Word, c: Word, d: Word, e: Word)
    requires block.Length == 16 && |ws| == 80 && Holds(block[..], ws, 0) && IsSchedule(ws)
    requires Rounds(h, ws, 0) == Vars(a0, b0, c0, d0, e0)
    modifies block
    ensures Holds(block[..], ws, 20) && Rounds(h, ws, 20) == Vars(a, b, c, d, e)
  {
    hide Rounds, Holds, IsSchedule;
    a, b, c, d, e := a0, b0, c0, d0, e0;
    b, e := R0(block, a, b, c, d, e, 0, h, ws, 0);
    a, d := R0(block, e, a, b, c, d, 1, h, ws, 1);
    e, c := R0(block, d, e, a, b, c, 2, h, ws, 2);
    d, b := R0(block, c, d, e, a, b, 3, h, ws, 3);
    c, a := R0(block, b, c, d, e, a, 4, h, ws, 4);
    b, e := R0(block, a, b, c, d, e, 5, h, ws, 5);
    a, d := R0(block, e, a, b, c, d, 6, h, ws, 6);
    e, c := R0(block, d, e, a, b, c, 7, h, ws, 7);
    d, b := R0(block, c, d, e, a, b, 8, h, ws, 8);
    c, a := R0(block, b, c, d, e, a, 9, h, ws, 9);
    b, e := R0(block, a, b, c, d, e, 10, h, ws, 10);
    a, d := R0(block, e, a, b, c, d, 11, h, ws, 11);
    e, c := R0(block, d, e, a, b, c, 12, h, ws, 12);
    d, b := R0(block, c, d, e, a, b, 13, h, ws, 13);
    c, a := R0(block, b, c, d, e, a, 14, h, ws, 14);
    b, e := R0(block, a, b, c, d, e, 15, h, ws, 15);
    a, d := R1(block, e, a, b, c, d, 0, h, ws, 16);
    e, c := R1(block, d, e, a, b, c, 1, h, ws, 17);
    d, b := R1(block, c, d, e, a, b, 2, h, ws, 18);
    c, a := R1(block, b, c, d, e, a, 3, h, ws, 19);
  }

  /** Operations 20 to 39 of transform. */
  method SecondRound(block: array<Word>, a0: Word, b0: Word, c0: Word, d0: Word, e0: Word, ghost h: Vars,
          ghost ws: seq<Word>)
    returns (a: Word, b: Word, c: Word, d: Word, e: Word)
    requires block.Length == 16 && |ws| == 80 && Holds(block[..], ws, 20) && IsSchedule(ws)
    requires Rounds(h, ws, 20) == Vars(a0, b0, c0, d0, e0)
    modifies block
    ensures Holds(block[..], ws, 40) && Rounds(h, ws, 40) == Vars(a, b, c, d, e)
  {
    hide Rounds, Holds, IsSchedule;
    a, b, c, d, e := a0, b0, c0, d0, e0;
    b, e := R2(block, a, b, c, d, e, 4, h, ws, 20);
    a, d := R2(block, e, a, b, c, d, 5, h, ws, 21);
    e, c := R2(block, d, e, a, b, c, 6, h, ws, 22);
    d, b := R2(block, c, d, e, a, b, 7, h, ws, 23);
    c, a := R2(block, b, c, d, e, a, 8, h, ws, 24);
    b, e := R2(block, a, b, c, d, e, 9, h, ws, 25);
    a, d := R2(block, e, a, b, c, d, 10, h, ws, 26);
    e, c := R2(block, d, e, a, b, c, 11, h, ws, 27);
    d, b := R2(block, c, d, e, a, b, 12, h, ws, 28);
    c, a := R2(block, b, c, d, e, a, 13, h, ws, 29);
    b, e := R2(block, a, b, c, d, e, 14, h, ws, 30);
    a, d := R2(block, e, a, b, c, d, 15, h, ws, 31);
    e, c := R2(block, d, e, a, b, c, 0, h, ws, 32);
    d, b := R2(block, c, d, e, a, b, 1, h, ws, 33);
    c, a := R2(block, b, c, d, e, a, 2, h, ws, 34);
    b, e := R2(block, a, b, c, d, e, 3, h, ws, 35);
    a, d := R2(block, e, a, b, c, d, 4, h, ws, 36);
    e, c := R2(block, d, e, a, b, c, 5, h, ws, 37);
    d, b := R2(block, c, d, e, a, b, 6, h, ws, 38);
    c, a := R2(block, b, c, d, e, a, 7, h, ws, 39);
  }

  /** Operations 40 to 59 of transform. */
  method ThirdRound(block: array<Word>, a0: Word, b0: Word, c0: Word, d0: Word, e0: Word, ghost h: Vars,
          ghost ws: seq<Word>)
    returns (a: Word, b: Word, c: Word, d: Word, e: Word)
    requires block.Length == 16 && |ws| == 80 && Holds(block[..], ws, 40) && IsSchedule(ws)
    requires Rounds(h, ws, 40) == Vars(a0, b0, c0, d0, e0)
    modifies block
    ensures Holds(block[..], ws, 60) && Rounds(h, ws, 60) == Vars(a, b, c, d, e)
  {
    hide Rounds, Holds, IsSchedule;
    a, b, c, d, e := a0, b0, c0, d0, e0;
    b, e := R3(block, a, b, c, d, e, 8, h, ws, 40);
    a, d := R3(block, e, a, b, c, d, 9, h, ws, 41);
    e, c := R3(block, d, e, a, b, c, 10, h, ws, 42);
    d, b := R3(block, c, d, e, a, b, 11, h, ws, 43);
    c, a := R3(block, b, c, d, e, a, 12, h, ws, 44);
    b, e := R3(block, a, b, c, d, e, 13, h, ws, 45);
    a, d := R3(block, e, a, b, c, d, 14, h, ws, 46);
    e, c := R3(block, d, e, a, b, c, 15, h, ws, 47);
    d, b := R3(block, c, d, e, a, b, 0, h, ws, 48);
    c, a := R3(block, b, c, d, e, a, 1, h, ws, 49);
    b, e := R3(block, a, b, c, d, e, 2, h, ws, 50);
    a, d := R3(block, e, a, b, c, d, 3, h, ws, 51);
    e, c := R3(block, d, e, a, b, c, 4, h, ws, 52);
    d, b := R3(block, c, d, e, a, b, 5, h, ws, 53);
    c, a := R3(block, b, c, d, e, a, 6, h, ws, 54);
    b, e := R3(block, a, b, c, d, e, 7, h, ws, 55);
    a, d := R3(block, e, a, b, c, d, 8, h, ws, 56);
    e, c := R3(block, d, e, a, b, c, 9, h, ws, 57);
    d, b := R3(block, c, d, e, a, b, 10, h, ws, 58);
    c, a := R3(block, b, c, d, e, a, 11, h, ws, 59);
  }

  /** Operations 60 to 79 of transform. */
  method FourthRound(block: array<Word>, a0: Word, b0: Word, c0: Word, d0: Word, e0: Word, ghost h: Vars,
          ghost ws: seq<Word>)
    returns (a: Word, b: Word, c: Word, d: Word, e: Word)
    requires block.Length == 16 && |ws| == 80 && Holds(block[..], ws, 60) && IsSchedule(ws)
    requires Rounds(h, ws, 60) == Vars(a0, b0, c0, d0, e0)
    modifies block
    ensures Holds(block[..], ws, 80) && Rounds(h, ws, 80) == Vars(a, b, c, d, e)
  {
    hide Rounds, Holds, IsSchedule;
    a, b, c, d, e := a0, b0, c0, d0, e0;
    b, e := R4(block, a, b, c, d, e, 12, h, ws, 60);
    a, d := R4(block, e, a, b, c, d, 13, h, ws, 61);
    e, c := R4(block, d, e, a, b, c, 14, h, ws, 62);
    d, b := R4(block, c, d, e, a, b, 15, h, ws, 63);
    c, a := R4(block, b, c, d, e, a, 0, h, ws, 64);
    b, e := R4(block, a, b, c, d, e, 1, h, ws, 65);
    a, d := R4(block, e, a, b, c, d, 2, h, ws, 66);
    e, c := R4(block, d, e, a, b, c, 3, h, ws, 67);
    d, b := R4(block, c, d, e, a, b, 4, h, ws, 68);
    c, a := R4(block, b, c, d, e, a, 5, h, ws, 69);
    b, e := R4(block, a, b, c, d, e, 6, h, ws, 70);
    a, d := R4(block, e, a, b, c, d, 7, h, ws, 71);
    e, c := R4(block, d, e, a, b, c, 8, h, ws, 72);
    d, b := R4(block, c, d, e, a, b, 9, h, ws, 73);
    c, a := R4(block, b, c, d, e, a, 10, h, ws, 74);
    b, e := R4(block, a, b, c, d, e, 11, h, ws, 75);
    a, d := R4(block, e, a, b, c, d, 12, h, ws, 76);
    e, c := R4(block, d, e, a, b, c, 13, h, ws, 77);
    d, b := R4(block, c, d, e, a, b, 14, h, ws, 78);
    c, a := R4(block, b, c, d, e, a, 15, h, ws, 79);
  }

  /** The digest words as the working words they start as. */
  function VarsOf(digest: seq<Word>): Vars
    requires |digest| == 5
  {
    Vars(digest[0], digest[1], digest[2], digest[3], digest[4])
  }

  /** transform: the digest becomes what the textbook method makes of it. */
  method Transform(digest: array<Word>, block: array<Word>)
    requires digest.Length == 5 && block.Length == 16 && digest != block
    modifies digest, block
    ensures VarsOf(digest[..]) == Compress(old(VarsOf(digest[..])), old(block[..]))
  {
    hide Rounds, Holds, IsSchedule, Schedule, Plus;
    var a, b, c, d, e := digest[0], digest[1], digest[2], digest[3], digest[4];
    ghost var h, ws := VarsOf(digest[..]), Schedule(block[..]);
    ScheduleIs(block[..]);
    NoRounds(h, ws);
    a, b, c, d, e := FirstRound(block, a, b, c, d, e, h, ws);
    a, b, c, d, e := SecondRound(block, a, b, c, d, e, h, ws);
    a, b, c, d, e := ThirdRound(block, a, b, c, d, e, h, ws);
    a, b, c, d, e := FourthRound(block, a, b, c, d, e, h, ws);
    AddBack(digest, a, b, c, d, e);
  }

  /** The end of transform. */
  method AddBack(digest: array<Word>, a: Word, b: Word, c: Word, d: Word, e: Word)
    requires digest.Length == 5
    modifies digest
    ensures VarsOf(digest[..]) == Plus(old(VarsOf(digest[..])), Vars(a, b, c, d, e))
  {
    hide Add;
    digest[0] := Add(digest[0], a);
    digest[1] := Add(digest[1], b);
    digest[2] := Add(digest[2], c);
    digest[3] := Add(digest[3], d);
    digest[4] := Add(digest[4], e);
  }

  lemma NoRounds(h: Vars, ws: seq<Word>)
    ensures Rounds(h, ws, 0) == h
  {
  }
}
