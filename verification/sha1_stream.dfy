/** SHA-1 over a message that arrives in pieces: buffering, padding and the digest's octets. */
module Sha1Stream {
  import opened Sha1

  type Octet = bv8

  /** Four octets, the first the most significant. */
  function Join4(b0: Octet, b1: Octet, b2: Octet, b3: Octet): Word {
    (b3 as Word) | ((b2 as Word) << 8) | ((b1 as Word) << 16) | ((b0 as Word) << 24)
  }

  function WordsOf(m: seq<Octet>): (ws: seq<Word>)
    requires |m| % 4 == 0
    ensures |ws| == |m| / 4
  {
    seq(|m| / 4, i requires 0 <= i < |m| / 4 => Join4(m[4 * i], m[4 * i + 1], m[4 * i + 2], m[4 * i + 3]))
  }

  /** The digest of whole blocks of sixteen words. */
  function Fold(h: Vars, ws: seq<Word>): Vars
    requires |ws| % 16 == 0
    decreases |ws|
  {
    if ws == [] then h else Compress(Fold(h, ws[..|ws| - 16]), ws[|ws| - 16..])
  }

  const INITIAL: Vars := Vars(0x67452301, 0xefcdab89, 0x98badcfe, 0x10325476, 0xc3d2e1f0)

  /** The octets of the initial words, each word from its least significant octet. */
  const OCTETS: seq<Octet> := [0x01, 0x23, 0x45, 0x67, 0x89, 0xab, 0xcd, 0xef, 0xfe, 0xdc, 0xba, 0x98] +
    [0x76, 0x54, 0x32, 0x10, 0xf0, 0xe1, 0xd2, 0xc3]

  lemma InitialOctets(t: nat)
    requires t < 5
    ensures |OCTETS| == 20
    ensures [INITIAL.a, INITIAL.b, INITIAL.c, INITIAL.d, INITIAL.e][t] ==
            Join4(OCTETS[4 * t + 3], OCTETS[4 * t + 2], OCTETS[4 * t + 1], OCTETS[4 * t])
  {
    assert t == 0 || t == 1 || t == 2 || t == 3 || t == 4;
  }

  /** The digest of whole blocks of 64 octets, before padding. */
  function Hashed(m: seq<Octet>): Vars
    requires |m| % 64 == 0
  {
    Whole(|m|);
    Fold(INITIAL, WordsOf(m))
  }

  lemma Whole(n: nat)
    requires n % 64 == 0
    ensures n % 4 == 0 && n / 4 % 16 == 0
  {
    var k := n / 64;
    assert n == 64 * k && n / 4 == 16 * k;
  }

  // ----- padding, section 4 of RFC 3174

  function Zeros(n: nat): (z: seq<Octet>)
    ensures |z| == n
  {
    seq(n, i => 0)
  }

  /** The message, a one bit and the fewest zeros that leave room for two words in a block. */
  function Filled(m: seq<Octet>): (p: seq<Octet>)
    ensures |p| % 64 == 56
  {
    m + [0x80] + Zeros((119 - |m| % 64) % 64)
  }

  const TWO32: nat := 0x1_0000_0000
  const TWO64: nat := 0x1_0000_0000_0000_0000

  /** The two words of the length in bits, which counts modulo 2^64. */
  function LengthWords(octets: nat): (ws: seq<Word>)
    ensures |ws| == 2
  {
    [(8 * octets / TWO32 % TWO32) as Word, (8 * octets % TWO32) as Word]
  }

  /** Fourteen words and the length. */
  function LastBlock(head: seq<Word>, octets: nat): (ws: seq<Word>)
    requires |head| == 14
    ensures |ws| == 16
  {
    head + LengthWords(octets)
  }

  const ZERO_WORDS: seq<Word> := [0, 0, 0, 0, 0, 0, 0, 0, 0, 0, 0, 0, 0, 0]

  function Padded(m: seq<Octet>): (ws: seq<Word>)
    ensures |ws| % 16 == 0
  {
    WholeBlocks(|Filled(m)|);
    WordsOf(Filled(m)) + LengthWords(|m|)
  }

  lemma WholeBlocks(n: nat)
    requires n % 64 == 56
    ensures n % 4 == 0 && (n / 4 + 2) % 16 == 0
  {
  }

  /** The octets of a word, the most significant first. */
  function Octets(w: Word): (s: seq<Octet>)
    ensures |s| == 4
  {
    [((w >> 24) & 0xFF) as Octet, ((w >> 16) & 0xFF) as Octet, ((w >> 8) & 0xFF) as Octet, (w & 0xFF) as Octet]
  }

  function AllOctets(ws: seq<Word>): seq<Octet>
    decreases |ws|
  {
    if ws == [] then [] else AllOctets(ws[..|ws| - 1]) + Octets(ws[|ws| - 1])
  }

  function Words(v: Vars): seq<Word> {
    [v.a, v.b, v.c, v.d, v.e]
  }

  /** The digest of a whole message, as the standard defines it. */
  function Digest(m: seq<Octet>): seq<Octet> {
    AllOctets(Words(Fold(INITIAL, Padded(m))))
  }

  // ----- lemmas

  lemma WordsAppend(a: seq<Octet>, b: seq<Octet>)
    requires |a| % 4 == 0 && |b| % 4 == 0
    ensures |a + b| % 4 == 0 && WordsOf(a + b) == WordsOf(a) + WordsOf(b)
  {
    hide Join4;
    var left, right := WordsOf(a + b), WordsOf(a) + WordsOf(b);
    forall i | 0 <= i < |left| ensures left[i] == right[i] {
      if i >= |a| / 4 {
        var k := i - |a| / 4;
        assert (a + b)[4 * i] == b[4 * k] && (a + b)[4 * i + 1] == b[4 * k + 1];
        assert (a + b)[4 * i + 2] == b[4 * k + 2] && (a + b)[4 * i + 3] == b[4 * k + 3];
      }
    }
  }

  lemma FoldMore(h: Vars, ws: seq<Word>, block: seq<Word>)
    requires |ws| % 16 == 0 && |block| == 16
    ensures |ws + block| % 16 == 0 && Fold(h, ws + block) == Compress(Fold(h, ws), block)
  {
    hide Compress;
    var all := ws + block;
    assert all[..|all| - 16] == ws && all[|all| - 16..] == block;
  }

  lemma FoldBlock(m: seq<Octet>, block: seq<Octet>)
    requires |m| % 64 == 0 && |block| == 64
    ensures |m + block| % 64 == 0 && Hashed(m + block) == Compress(Hashed(m), WordsOf(block))
  {
    hide Fold, Compress, WordsOf;
    Whole(|m|);
    WordsAppend(m, block);
    FoldMore(INITIAL, WordsOf(m), WordsOf(block));
  }

  /** The bit count the code keeps in 64 bits is the message's, modulo 2^64. */
  lemma BitCount(n: nat)
    ensures ((n / 64 % TWO64) * 64 + n % 64) * 8 % TWO64 == 8 * n % TWO64
  {
    var q, t := n / 64 / TWO64, n / 64 % TWO64;
    assert n / 64 == q * TWO64 + t;
    assert 8 * n == (t * 64 + n % 64) * 8 + 512 * q * TWO64;
    Wraps((t * 64 + n % 64) * 8, 512 * q);
  }

  lemma Wraps(a: nat, q: nat)
    ensures (a + q * TWO64) % TWO64 == a % TWO64
  {
    if q > 0 { Wraps(a, q - 1); }
  }

  lemma Halves(a: nat)
    ensures a % TWO64 / TWO32 == a / TWO32 % TWO32 && a % TWO64 % TWO32 == a % TWO32
  {
    var q, b := a / TWO64, a % TWO64;
    assert a == q * TWO64 + b && q * TWO64 == q * TWO32 * TWO32;
    var high, low := b / TWO32, b % TWO32;
    assert b == high * TWO32 + low && high < TWO32;
    assert a == (q * TWO32 + high) * TWO32 + low;
    assert a / TWO32 == q * TWO32 + high && a % TWO32 == low;
  }

  lemma Partial(before: seq<Octet>, rest: seq<Octet>, m: seq<Octet>)
    requires |before| % 64 == 0 && |rest| < 64 && m == before + rest
    ensures |m| % 64 == |rest| && |m| / 64 == |before| / 64
    ensures m[..|m| - |rest|] == before && m[|m| - |rest|..] == rest
  {
  }

  lemma MoreOctets(ws: seq<Word>, i: nat)
    requires i < |ws|
    ensures AllOctets(ws[..i + 1]) == AllOctets(ws[..i]) + Octets(ws[i]) && Octets(ws[i])[..4] == Octets(ws[i])
  {
    hide Octets;
    assert ws[..i + 1][..i] == ws[..i];
  }

  /** Whole blocks `a`, and 56 octets `x` that the length completes to a block. */
  lemma PaddedIs(m: seq<Octet>, a: seq<Octet>, x: seq<Octet>)
    requires Filled(m) == a + x && |a| % 64 == 0 && |x| == 56
    ensures |WordsOf(x)| == 14 && Fold(INITIAL, Padded(m)) == Compress(Hashed(a), LastBlock(WordsOf(x), |m|))
  {
    hide Fold, Compress, WordsOf, LengthWords, Filled, Hashed;
    HashedIs(a);
    WordsAppend(a, x);
    var last := LastBlock(WordsOf(x), |m|);
    assert Padded(m) == WordsOf(a) + last;
    FoldMore(INITIAL, WordsOf(a), last);
  }

  lemma HashedIs(m: seq<Octet>)
    requires |m| % 64 == 0
    ensures |m| % 4 == 0 && |m| / 4 % 16 == 0 && Hashed(m) == Fold(INITIAL, WordsOf(m))
  {
    hide Fold, WordsOf;
    Whole(|m|);
  }

  /** A message whose last octets leave room for the length: one more block. */
  lemma OneBlock(before: seq<Octet>, rest: seq<Octet>, buffer: seq<Octet>, m: seq<Octet>)
    requires |before| % 64 == 0 && m == before + rest && |rest| < 56 && buffer == rest + [0x80] + Zeros(63 - |rest|)
    ensures Fold(INITIAL, Padded(m)) ==
            Compress(Hashed(before), LastBlock(WordsOf(buffer)[..14], |m|))
  {
    hide Fold, Compress, WordsOf, LastBlock, Filled, Hashed, Padded;
    FilledShort(before, rest, buffer, m);
    var x := buffer[..56];
    PaddedIs(m, before, x);
    WordsAppend(x, buffer[56..]);
    assert buffer == x + buffer[56..];
  }

  lemma FilledShort(before: seq<Octet>, rest: seq<Octet>, buffer: seq<Octet>, m: seq<Octet>)
    requires |before| % 64 == 0 && m == before + rest && |rest| < 56 && buffer == rest + [0x80] + Zeros(63 - |rest|)
    ensures Filled(m) == before + buffer[..56]
  {
    Partial(before, rest, m);
    assert (119 - |rest|) % 64 == 55 - |rest|;
    assert Zeros(63 - |rest|)[..55 - |rest|] == Zeros(55 - |rest|);
    assert buffer[..56] == rest + [0x80] + Zeros(55 - |rest|);
  }

  /** Otherwise the length goes into a second block, after zeros. */
  lemma TwoBlocks(before: seq<Octet>, rest: seq<Octet>, buffer: seq<Octet>, m: seq<Octet>)
    requires |before| % 64 == 0 && m == before + rest && 56 <= |rest| < 64 &&
             buffer == rest + [0x80] + Zeros(63 - |rest|)
    ensures Fold(INITIAL, Padded(m)) ==
            Compress(Compress(Hashed(before), WordsOf(buffer)), LastBlock(ZERO_WORDS, |m|))
  {
    hide Fold, Compress, WordsOf, LastBlock, Filled, Hashed, Padded;
    FilledLong(before, rest, buffer, m);
    PaddedIs(m, before + buffer, Zeros(56));
    ZeroWords();
    FoldBlock(before, buffer);
  }

  lemma FilledLong(before: seq<Octet>, rest: seq<Octet>, buffer: seq<Octet>, m: seq<Octet>)
    requires |before| % 64 == 0 && m == before + rest && 56 <= |rest| < 64 &&
             buffer == rest + [0x80] + Zeros(63 - |rest|)
    ensures |before + buffer| % 64 == 0 && Filled(m) == before + buffer + Zeros(56)
  {
    Partial(before, rest, m);
    assert Zeros(63 - |rest|) + Zeros(56) == Zeros(119 - |rest|);
    assert (119 - |rest|) % 64 == 119 - |rest|;
  }

  lemma ZeroWords()
    ensures WordsOf(Zeros(56)) == ZERO_WORDS
  {
    assert Join4(0, 0, 0, 0) == 0;
  }

  lemma NothingHashed()
    ensures Hashed([]) == INITIAL
  {
  }

  lemma NoOctets()
    ensures AllOctets([]) == []
  {
  }

  lemma Spelt(digest: seq<Word>)
    requires |digest| == 5
    ensures Words(VarsOf(digest)) == digest
  {
  }

  lemma OneMore(n: nat)
    requires n % 64 == 0
    ensures (n / 64 % TWO64 + 1) % TWO64 == (n + 64) / 64 % TWO64 && (n + 64) % 64 == 0
  {
    var k := n / 64;
    assert n == 64 * k && (n + 64) / 64 == k + 1;
  }

  lemma Bits(before: seq<Octet>, rest: seq<Octet>, m: seq<Octet>, totalBits: nat)
    requires |before| % 64 == 0 && |rest| < 64 && m == before + rest
    requires totalBits == (|before| / 64 % TWO64 * 64 + |rest|) * 8 % TWO64
    ensures totalBits == 8 * |m| % TWO64
  {
    Partial(before, rest, m);
    BitCount(|m|);
  }

  // ----- the code

  /** buffer_to_block. */
  method BufferToBlock(buffer: seq<Octet>, block: array<Word>)
    requires |buffer| == 64 && block.Length == 16
    modifies block
    ensures block[..] == WordsOf(buffer)
  {
    hide Join4;
    var i := 0;
    while i < 16
      invariant 0 <= i <= 16 && forall k :: 0 <= k < i ==> block[k] == WordsOf(buffer)[k]
    {
      block[i] := Join4(buffer[4 * i], buffer[4 * i + 1], buffer[4 * i + 2], buffer[4 * i + 3]);
      i := i + 1;
    }
  }

  class SHA1 {
    const digest: array<Word>
    var buffer: seq<Octet>
    /** A uint64_t. */
    var transforms: nat
    /** All the octets since the last reset. */
    ghost var fed: seq<Octet>

    ghost predicate Valid()
      reads this, digest
    {
      |buffer| < 64 && |buffer| <= |fed| && Between(fed[..|fed| - |buffer|])
    }

    /** The octets `before` are hashed, and the others are in the buffer. */
    ghost predicate Between(before: seq<Octet>)
      reads this, digest
    {
      && digest.Length == 5 && |before| % 64 == 0 && fed == before + buffer
      && transforms == |before| / 64 % TWO64
      && VarsOf(digest[..]) == Hashed(before)
    }

    constructor ()
      ensures Valid() && fed == [] && fresh(digest)
    {
      digest := new Word[5];
      buffer, transforms, fed := [], 0, [];
      new;
      Reset();
    }

    /** reset. */
    method Reset()
      requires digest.Length == 5
      modifies this, digest
      ensures Valid() && fed == []
    {
      hide Hashed;
      digest[0], digest[1], digest[2], digest[3], digest[4] := 0x67452301, 0xefcdab89, 0x98badcfe, 0x10325476,
        0xc3d2e1f0;
      buffer, transforms, fed := [], 0, [];
      NothingHashed();
      assert fed[..0] == [];
    }

    /** A full buffer goes through transform. */
    method TakeBlock(ghost before: seq<Octet>)
      requires Between(before) && |buffer| == 64
      modifies `buffer, `transforms, digest
      ensures Valid() && buffer == []
    {
      hide WordsOf, Hashed, Compress;
      var block := new Word[16];
      BufferToBlock(buffer, block);
      FoldBlock(before, buffer);
      Transform(digest, block);
      OneMore(|before|);
      transforms := (transforms + 1) % TWO64;
      buffer := [];
      assert fed[..|fed|] == fed == fed + [];
    }

    method Append(piece: seq<Octet>, ghost before: seq<Octet>)
      requires Between(before)
      modifies `buffer, `fed
      ensures Between(before) && fed == old(fed) + piece && buffer == old(buffer) + piece
    {
      hide Hashed;
      buffer := buffer + piece;
      fed := fed + piece;
      assert fed == before + buffer;
    }

    /** update: the octets `s` join those fed before, whatever the cuts. */
    method Update(s: seq<Octet>)
      requires Valid()
      modifies this, digest
      ensures Valid() && fed == old(fed) + s
    {
      hide Between;
      var pos := 0;
      while true
        invariant 0 <= pos <= |s| && Valid() && fed == old(fed) + s[..pos]
        decreases |s| - pos
      {
        ghost var before := fed[..|fed| - |buffer|];
        var n := if |s| - pos < 64 - |buffer| then |s| - pos else 64 - |buffer|;
        Append(s[pos..pos + n], before);
        assert s[..pos + n] == s[..pos] + s[pos..pos + n];
        pos := pos + n;
        if |buffer| != 64 {
          assert s[..pos] == s;
          assert fed[..|fed| - |buffer|] == before;
          return;
        }
        TakeBlock(before);
      }
    }

    /** final_bin: the digest of all octets fed since the last reset, and a fresh start. */
    method FinalBin() returns (result: seq<Octet>)
      requires Valid()
      modifies this, digest
      ensures result == Digest(old(fed))
      ensures Valid() && fed == []
    {
      hide Padded, Fold, AllOctets, Hashed;
      PadAndTransform();
      result := Output();
      Reset();
    }

    /** The digest as octets. */
    method Output() returns (result: seq<Octet>)
      requires digest.Length == 5
      ensures result == AllOctets(digest[..])
    {
      hide Octets, AllOctets;
      ghost var words := digest[..];
      result := [];
      NoOctets();
      assert words[..0] == [];
      var i := 0;
      while i < 5
        invariant 0 <= i <= 5 && result == AllOctets(words[..i])
      {
        var b := 0;
        while b < 4
          invariant 0 <= b <= 4 && result == AllOctets(words[..i]) + Octets(words[i])[..b]
        {
          result := result + [Octets(digest[i])[b]];
          b := b + 1;
        }
        MoreOctets(words, i);
        i := i + 1;
      }
      assert words[..5] == words;
    }

    /** The padding of final_bin: one more block, or two when the length does not fit. */
    method PadAndTransform()
      requires Valid()
      modifies this, digest
      ensures digest.Length == 5 && Words(Fold(INITIAL, Padded(old(fed)))) == digest[..]
    {
      hide WordsOf, Hashed, Compress, Padded, Fold, LengthWords;
      var totalBits := (transforms * 64 + |buffer|) * 8 % TWO64;
      ghost var before, rest, m := fed[..|fed| - |buffer|], buffer, fed;
      Bits(before, rest, m, totalBits);
      buffer := buffer + [0x80];
      var origSize := |buffer|;
      while |buffer| < 64
        modifies `buffer
        invariant origSize <= |buffer| <= 64 && buffer == rest + [0x80] + Zeros(|buffer| - origSize)
        decreases 64 - |buffer|
      {
        buffer := buffer + [0];
      }
      var block := new Word[16];
      BufferToBlock(buffer, block);
      if origSize > 56 {
        Transform(digest, block);
        transforms := (transforms + 1) % TWO64;
        ClearBlock(block);
        TwoBlocks(before, rest, buffer, m);
      } else {
        OneBlock(before, rest, buffer, m);
        assert block[..14] == block[..][..14];
      }
      AppendLength(block, totalBits, |m|);
      Transform(digest, block);
      Spelt(digest[..]);
    }
  }

  /** The first words of a block that carries only the length. */
  method ClearBlock(block: array<Word>)
    requires block.Length == 16
    modifies block
    ensures block[..14] == ZERO_WORDS
  {
    var i := 0;
    while i < 14
      invariant 0 <= i <= 14 && block[..i] == ZERO_WORDS[..i]
    {
      block[i] := 0;
      i := i + 1;
    }
  }

  /** The bit count, split into two words. */
  method AppendLength(block: array<Word>, totalBits: nat, ghost octets: nat)
    requires block.Length == 16 && totalBits == 8 * octets % TWO64
    modifies block
    ensures block[..] == LastBlock(old(block[..14]), octets)
  {
    Halves(8 * octets);
    block[15] := (totalBits % TWO32) as Word;
    block[14] := (totalBits / TWO32) as Word;
  }
}
