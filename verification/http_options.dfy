/** Header values that are lists: the codings of Transfer-Encoding, the options of Connection. Which
    of them the parser hears, and what it makes of them. */
module HttpOptions {
  import opened Bytes
  import opened Decimals
  import opened HttpTypes
  import opened HttpTurn
  import opened HttpRun
  import opened HttpCut
  import opened HttpFraming
  import opened HttpExecute
  import opened HttpChunks
  import opened HttpLengths
  import opened HttpTrailers
  import opened HttpNames
  import opened HttpValues

  // ----- lists

  /** What stands between two commas: blanks, then all up to the next blank, then the rest. */
  datatype Listed = Listed(before: Bytes, token: Bytes, after: Bytes)

  datatype ListKind = Codings | Options

  /** What stands between the commas of a value. */
  function Split(value: Bytes): (parts: seq<Bytes>)
    ensures parts != []
  {
    if value == [] then [[]]
    else
      var parts := Split(value[1..]);
      if value[0] == COMMA then [[]] + parts else [[value[0]] + parts[0]] + parts[1..]
  }

  /** How many bytes at the start are blanks, or are not. */
  function Initial(t: Bytes, blank: bool): (n: nat)
    ensures n <= |t| && (forall k :: 0 <= k < n ==> IsBlank(t[k]) == blank) && (n < |t| ==> IsBlank(t[n]) != blank)
  {
    if t != [] && IsBlank(t[0]) == blank then 1 + Initial(t[1..], blank) else 0
  }

  function Parted(t: Bytes): Listed {
    var a := Initial(t, true);
    var b := Initial(t[a..], false);
    Listed(t[..a], t[a..a + b], t[a + b..])
  }

  /** The options or codings that a value lists. */
  function Items(value: Bytes): (os: seq<Listed>)
    ensures |os| == |Split(value)| > 0
  {
    seq(|Split(value)|, k requires 0 <= k < |Split(value)| => Parted(Split(value)[k]))
  }

  predicate AllBlank(s: Bytes) {
    forall k :: 0 <= k < |s| ==> IsBlank(s[k])
  }

  predicate Inner(c: byte) {
    c != COMMA && c != CR && c != LF && IsHeaderChar(c)
  }

  predicate IsListed(o: Listed) {
    && AllBlank(o.before) && (forall k :: 0 <= k < |o.token| ==> Inner(o.token[k]) && !IsBlank(o.token[k]))
    && (forall k :: 0 <= k < |o.after| ==> Inner(o.after[k]))
    && (o.after != [] ==> o.token != [] && IsBlank(o.after[0]))
  }

  predicate IsList(os: seq<Listed>) {
    os != [] && os[0].before == [] && forall k :: 0 <= k < |os| ==> IsListed(os[k])
  }

  function OptionText(o: Listed): Bytes {
    o.before + o.token + o.after
  }

  /** The first options, each with a comma after it. */
  function TextUpTo(os: seq<Listed>, n: nat): Bytes
    requires n <= |os|
  {
    if n == 0 then [] else TextUpTo(os, n - 1) + OptionText(os[n - 1]) + [COMMA]
  }

  function ListText(os: seq<Listed>): Bytes
    requires os != []
  {
    TextUpTo(os, |os| - 1) + OptionText(os[|os| - 1])
  }

  // ----- what is heard of a list

  /** The word in any case, and nothing but spaces after it. */
  ghost predicate Says(o: Listed, word: string) {
    Spells(o.token, word) && Spaces(o.after)
  }

  /** Some first letters of the word and not all of them, or none, right before the comma. */
  ghost predicate Cut(o: Listed, word: string) {
    Begins(o.token, word) && |o.token| < |word| && o.after == []
  }

  /** After such an option the parser does not see the comma. */
  ghost predicate Swallows(kind: ListKind, o: Listed) {
    if kind.Codings? then Cut(o, CHUNKED) || Says(o, CHUNKED)
    else Cut(o, KEEP_ALIVE) || Cut(o, CLOSE) || Cut(o, UPGRADE)
  }

  /** A tab before the token, or one that is empty or begins with no token character, has the
      parser pass over the rest of the list. Its test of the character sets bit 5 first. */
  predicate Derails(o: Listed) {
    TAB in o.before || o.token == [] || TokenOf(Lower(o.token[0])) == 0
  }

  /** Before an option: it is looked at, passed over, or everything is from here on. */
  datatype Stage = Listening | Passed | Lost

  ghost function StageOf(kind: ListKind, os: seq<Listed>, k: nat): Stage
    requires k <= |os|
  {
    if k == 0 then Listening
    else match StageOf(kind, os, k - 1)
      case Lost => Lost
      case Passed => Listening
      case Listening =>
        if k > 1 && Derails(os[k - 1]) then Lost else if Swallows(kind, os[k - 1]) then Passed else Listening
  }

  ghost predicate Heard(kind: ListKind, os: seq<Listed>, k: nat)
    requires k < |os|
  {
    StageOf(kind, os, k).Listening? && os[k].token != [] && (k == 0 || !Derails(os[k]))
  }

  /** One of the first `n` is heard and says the word. */
  ghost predicate SomeSays(kind: ListKind, os: seq<Listed>, n: nat, word: string)
    requires n <= |os|
  {
    exists k :: 0 <= k < n && Heard(kind, os, k) && Says(os[k], word)
  }

  /** The last coding is heard, and is chunked. */
  ghost predicate EndsChunked(os: seq<Listed>)
    requires os != []
  {
    Heard(Codings, os, |os| - 1) && Says(os[|os| - 1], CHUNKED)
  }

  // ----- words

  datatype WordValue = WordValue(word: string, matching: HState, missed: HState, done: HState)

  const TE_CHUNKED := WordValue(CHUNKED, MatchingTeChunked, MatchingTeToken, TeChunked)
  const CONN_KEEP_ALIVE := WordValue(KEEP_ALIVE, MatchingConnKeepAlive, MatchingConnToken, ConnKeepAlive)
  const CONN_CLOSE := WordValue(CLOSE, MatchingConnClose, MatchingConnToken, ConnClose)
  const CONN_UPGRADE := WordValue(UPGRADE, MatchingConnUpgrade, MatchingConnToken, ConnUpgrade)

  predicate Known(w: WordValue) {
    w == TE_CHUNKED || w == CONN_KEEP_ALIVE || w == CONN_CLOSE || w == CONN_UPGRADE
  }

  /** The word that a token with this first letter may be. */
  function WordFor(kind: ListKind, c: byte): WordValue {
    if kind.Codings? then TE_CHUNKED else if CaseOf(c, 'k') then CONN_KEEP_ALIVE
    else if CaseOf(c, 'c') then CONN_CLOSE else CONN_UPGRADE
  }

  function Opening(kind: ListKind): HState {
    if kind.Codings? then MatchingTeTokenStart else MatchingConnTokenStart
  }

  function Passing(kind: ListKind): HState {
    if kind.Codings? then MatchingTeToken else MatchingConnToken
  }

  function NameFor(kind: ListKind): HState {
    if kind.Codings? then TransferEncoding else Connection
  }

  /** Where the parser stands in or after an option, by the word that it may be. */
  ghost function StateIn(o: Listed, w: WordValue): HState {
    if Says(o, w.word) then w.done else if Cut(o, w.word) then w.matching else w.missed
  }

  function Letters(l: Bytes): Listed {
    Listed([], l, [])
  }

  lemma ValueWordsArePlain()
    ensures Plainly(CHUNKED) && Plainly(KEEP_ALIVE) && Plainly(CLOSE) && Plainly(UPGRADE)
    ensures |CHUNKED| == 7 && |KEEP_ALIVE| == 10 && |CLOSE| == 5 && |UPGRADE| == 7
    ensures CHUNKED[0] == 'c' && KEEP_ALIVE[0] == 'k' && CLOSE[0] == 'c' && UPGRADE[0] == 'u'
  {
  }

  lemma KnownWord(w: WordValue)
    requires Known(w)
    ensures Plainly(w.word) && 1 < |w.word| <= 10
    ensures w.done != w.matching && w.done != w.missed && w.matching != w.missed
  {
    ValueWordsArePlain();
  }

  // ----- single bytes

  lemma LowerCase(ch: byte, w: char)
    requires ('a' <= w <= 'z' || w == '-') && ch != CR
    ensures Lower(ch) == w as int <==> CaseOf(ch, w)
    ensures IsBlank(ch) || ch == COMMA ==> !CaseOf(ch, w)
  {
  }

  /** A byte within a value is looked at. */
  lemma ValueByte(p: Parser, ch: byte)
    requires p.state == HeaderValue && p.nread < MAX_HEADER_SIZE && ch != CR && ch != LF && IsHeaderChar(ch)
    ensures Byte(p, ch) == ValueChar(p.(nread := p.nread + 1), ch)
  {
    hide Byte, ValueChar, IsHeaderChar;
    ByteInValue(p, ch);
  }

  /** The first byte of a value. */
  lemma EnterTurn(p: Parser, kind: ListKind, ch: byte)
    requires p.state == AroundValue(HeaderValueDiscardWs) && p.headerState == NameFor(kind) && p.nread < MAX_HEADER_SIZE
    requires !IsBlank(ch) && ch != CR && ch != LF
    ensures Byte(p, ch) ==
            Go(p.(state := HeaderValue, headerState := StateIn(Letters([ch]), WordFor(kind, ch)), index := 0,
                  nread := p.nread + 1), [Open(HeaderValueText)], [])
  {
    FirstLetter(kind, ch);
    hide StateIn, TokenOf, IsHeaderChar, StrictToken, Lower;
  }

  lemma FirstLetter(kind: ListKind, ch: byte)
    requires ch != CR
    ensures var h := StateIn(Letters([ch]), WordFor(kind, ch)); var c := Lower(ch);
      if kind.Codings? then h == if c == 99 then MatchingTeChunked else MatchingTeToken
      else h == if c == 107 then MatchingConnKeepAlive else if c == 99 then MatchingConnClose
                else if c == 117 then MatchingConnUpgrade else MatchingConnToken
  {
    ValueWordsArePlain();
    LowerCase(ch, 'c');
    LowerCase(ch, 'k');
    LowerCase(ch, 'u');
    var w := WordFor(kind, ch);
    assert Begins([ch], w.word) <==> CaseOf(ch, w.word[0]);
    hide TokenOf, Lower, CaseOf;
  }

  /** The first letter of an option that is looked at. */
  lemma FirstTurn(p: Parser, kind: ListKind, ch: byte)
    requires p.state == HeaderValue && p.headerState == Opening(kind) && p.nread < MAX_HEADER_SIZE
    requires Inner(ch) && TokenOf(Lower(ch)) != 0
    ensures Byte(p, ch) ==
            Go(p.(headerState := StateIn(Letters([ch]), WordFor(kind, ch)), nread := p.nread + 1), [], [])
  {
    FirstLetter(kind, ch);
    hide StateIn, TokenOf, IsHeaderChar, Lower, Byte;
    ValueByte(p, ch);
  }

  lemma OpeningSpace(p: Parser, kind: ListKind)
    requires p.state == HeaderValue && p.headerState == Opening(kind) && p.nread < MAX_HEADER_SIZE
    ensures Byte(p, SPACE) == Go(p.(nread := p.nread + 1), [], [])
  {
    ValueByte(p, SPACE);
    hide Byte;
  }

  lemma OpeningOdd(p: Parser, kind: ListKind, ch: byte)
    requires p.state == HeaderValue && p.headerState == Opening(kind) && p.nread < MAX_HEADER_SIZE
    requires (Inner(ch) || ch == COMMA) && ch != SPACE && TokenOf(Lower(ch)) == 0
    ensures Byte(p, ch) == Go(p.(headerState := General, nread := p.nread + 1), [], [])
  {
    ValueByte(p, ch);
    NoLetter(ch);
    hide Byte, TokenOf, Lower, IsHeaderChar;
  }

  lemma NoLetter(ch: byte)
    requires (Inner(ch) || ch == COMMA) && ch != SPACE && TokenOf(Lower(ch)) == 0
    ensures var c := Lower(ch); c != 99 && c != 107 && c != 117 && c != SPACE && c != TAB
    ensures ch != CR && ch != LF && IsHeaderChar(ch)
  {
  }

  /** In a list, or after one that was lost: a byte that is passed over. */
  predicate PassesBy(h: HState) {
    h.MatchingTeToken? || h.MatchingConnToken? || h.General?
  }

  lemma PassTurn(p: Parser, ch: byte)
    requires p.state == HeaderValue && p.nread < MAX_HEADER_SIZE && PassesBy(p.headerState) && Inner(ch)
    ensures Byte(p, ch) == Go(p.(nread := p.nread + 1), [], [])
  {
    hide IsHeaderChar;
    ValueByte(p, ch);
    hide Byte;
  }

  lemma PassComma(p: Parser, kind: ListKind)
    requires p.state == HeaderValue && p.nread < MAX_HEADER_SIZE
    ensures p.headerState == Passing(kind) ==>
      Byte(p, COMMA) == Go(p.(headerState := Opening(kind), index := 0, nread := p.nread + 1), [], [])
    ensures p.headerState.General? ==> Byte(p, COMMA) == Go(p.(nread := p.nread + 1), [], [])
  {
    ValueByte(p, COMMA);
    hide Byte;
  }

  /** The parser has read these letters of an option that is heard. */
  ghost predicate OptionIs(p: Parser, w: WordValue, o: Listed) {
    && p.state == HeaderValue && Known(w) && o.token != [] && p.headerState == StateIn(o, w)
    && (p.headerState == w.matching ==> p.index == |o.token| - 1)
  }

  lemma WordTurn(p: Parser, w: WordValue, ch: byte)
    requires p.state == HeaderValue && p.nread < MAX_HEADER_SIZE && Known(w) && p.headerState == w.matching
    requires Inner(ch) || ch == COMMA
    ensures Byte(p, ch) ==
            Go(MatchWord(p.(nread := p.nread + 1), w.word, Lower(ch), w.missed, w.done), [], [])
  {
    CommaInValue();
    MatchStays(p.(nread := p.nread + 1), w.word, Lower(ch), w.missed, w.done);
    hide IsHeaderChar, Lower, MatchWord;
    ValueByte(p, ch);
    hide Byte;
  }

  lemma MatchStays(p: Parser, word: string, c: byte, missed: HState, done: HState)
    ensures MatchWord(p, word, c, missed, done).state == p.state
  {
  }

  lemma CommaInValue()
    ensures IsHeaderChar(COMMA) && COMMA != CR && COMMA != LF
  {
  }

  lemma DoneTurn(p: Parser, w: WordValue, ch: byte)
    requires p.state == HeaderValue && p.nread < MAX_HEADER_SIZE && Known(w) && p.headerState == w.done && Inner(ch)
    ensures Byte(p, ch) ==
            Go(p.(headerState := if ch == SPACE then w.done else w.missed, nread := p.nread + 1), [], [])
  {
    hide IsHeaderChar;
    ValueByte(p, ch);
    hide Byte;
  }

  lemma Matches(p: Parser, w: WordValue, l: Bytes, ch: byte)
    requires Known(w) && l != [] && Begins(l, w.word) && |l| < |w.word| && p.index == |l| - 1
    requires ch != CR
    ensures var q := MatchWord(p, w.word, Lower(ch), w.missed, w.done);
      q == p.(headerState := q.headerState, index := |l|) &&
      q.headerState == if !Begins(l + [ch], w.word) then w.missed else if |l| + 1 == |w.word| then w.done
                       else p.headerState
    ensures IsBlank(ch) || ch == COMMA ==> !Begins(l + [ch], w.word)
  {
    hide *;
    KnownWord(w);
    BeginsMore(l, ch, w.word);
    WordLetter(w.word, |l|);
    LowerCase(ch, w.word[|l|]);
    MatchIs(p, w.word, Lower(ch), w.missed, w.done);
  }

  lemma WordLetter(word: string, k: nat)
    requires Plainly(word) && k < |word|
    ensures 'a' <= word[k] <= 'z' || word[k] == '-'
  {
  }

  lemma MatchIs(p: Parser, word: string, c: byte, missed: HState, done: HState)
    requires p.index + 1 < |word| <= 10
    ensures MatchWord(p, word, c, missed, done) ==
            p.(index := p.index + 1,
               headerState := if c != word[p.index + 1] as int then missed
                 else if p.index + 2 == |word| then done else p.headerState)
  {
  }

  /** Where the letters of an option lead. */
  lemma LetterState(w: WordValue, l: Bytes)
    ensures Begins(l, w.word) ==> |l| <= |w.word|
    ensures StateIn(Letters(l), w) ==
            if !Begins(l, w.word) then w.missed else if |l| == |w.word| then w.done else w.matching
  {
    assert Begins(l, w.word) ==> |l| <= |w.word|;
    hide Begins;
  }

  /** Another letter of an option that is heard. */
  lemma LetterTurn(p: Parser, w: WordValue, l: Bytes, ch: byte) returns (q: Parser)
    requires OptionIs(p, w, Letters(l)) && Inner(ch) && !IsBlank(ch) && p.nread < MAX_HEADER_SIZE
    ensures Byte(p, ch) == Go(q, [], []) && OptionIs(q, w, Letters(l + [ch]))
    ensures q == p.(headerState := q.headerState, index := q.index, nread := p.nread + 1)
  {
    hide Byte, IsHeaderChar, MatchWord, Lower, Begins, StateIn, Known;
    KnownWord(w);
    BeginsMore(l, ch, w.word);
    LetterState(w, l);
    LetterState(w, l + [ch]);
    if p.headerState == w.matching {
      WordTurn(p, w, ch);
      Matches(p.(nread := p.nread + 1), w, l, ch);
      q := MatchWord(p.(nread := p.nread + 1), w.word, Lower(ch), w.missed, w.done);
    } else if p.headerState == w.done {
      DoneTurn(p, w, ch);
      q := p.(headerState := w.missed, nread := p.nread + 1);
    } else {
      MissedPasses(w);
      PassTurn(p, ch);
      q := p.(nread := p.nread + 1);
    }
  }

  lemma MissedPasses(w: WordValue)
    requires Known(w)
    ensures PassesBy(w.missed)
  {
  }

  /** A byte after the token of an option that is heard: a blank, or anything after that. */
  lemma TailTurn(p: Parser, w: WordValue, o: Listed, ch: byte) returns (q: Parser)
    requires OptionIs(p, w, o) && Inner(ch) && (o.after == [] ==> IsBlank(ch)) && p.nread < MAX_HEADER_SIZE
    ensures Byte(p, ch) == Go(q, [], []) && OptionIs(q, w, o.(after := o.after + [ch]))
    ensures q == p.(headerState := q.headerState, index := q.index, nread := p.nread + 1)
  {
    hide Byte, IsHeaderChar, MatchWord, Lower, Begins;
    KnownWord(w);
    SpacesMore(o.after, ch);
    if p.headerState == w.matching {
      WordTurn(p, w, ch);
      Matches(p.(nread := p.nread + 1), w, o.token, ch);
      q := MatchWord(p.(nread := p.nread + 1), w.word, Lower(ch), w.missed, w.done);
    } else if p.headerState == w.done {
      DoneTurn(p, w, ch);
      q := p.(headerState := if ch == SPACE then w.done else w.missed, nread := p.nread + 1);
    } else {
      MissedPasses(w);
      PassTurn(p, ch);
      q := p.(nread := p.nread + 1);
    }
  }

  lemma SpacesMore(s: Bytes, ch: byte)
    ensures Spaces(s + [ch]) <==> Spaces(s) && ch == SPACE
  {
    assert (s + [ch])[|s|] == ch && (s + [ch])[..|s|] == s;
    assert forall k :: 0 <= k < |s| ==> s[k] == (s + [ch])[k];
  }

  /** The kind of list that the word is listed in. */
  predicate WordOf(w: WordValue, kind: ListKind) {
    Known(w) && (kind.Codings? <==> w == TE_CHUNKED)
  }

  /** The flags once the comma after an option that is heard has been read. */
  ghost function FlagsAfter(kind: ListKind, fl: Flags, w: WordValue, o: Listed): Flags {
    if kind.Codings? || !Says(o, w.word) then fl else WordFlags(fl, w)
  }

  /** The flag that a word sets. */
  function WordFlags(fl: Flags, w: WordValue): Flags {
    fl.(chunked := fl.chunked || w == TE_CHUNKED, keepAlive := fl.keepAlive || w == CONN_KEEP_ALIVE,
        close := fl.close || w == CONN_CLOSE, connUpgrade := fl.connUpgrade || w == CONN_UPGRADE)
  }

  /** The comma after an option that is heard. */
  lemma CommaTurn(p: Parser, kind: ListKind, w: WordValue, o: Listed) returns (q: Parser)
    requires OptionIs(p, w, o) && WordOf(w, kind) && p.nread < MAX_HEADER_SIZE
    ensures Byte(p, COMMA) == Go(q, [], [])
    ensures q == p.(headerState := q.headerState, index := q.index, nread := p.nread + 1,
                    flags := FlagsAfter(kind, p.flags, w, o))
    ensures var swallowed := Cut(o, w.word) || (kind.Codings? && Says(o, w.word));
      q.headerState == (if swallowed then Passing(kind) else Opening(kind)) && (!swallowed ==> q.index == 0)
  {
    hide Byte, MatchWord, Lower, Begins, Says;
    KnownWord(w);
    assert w.missed == Passing(kind);
    if p.headerState == w.matching {
      WordTurn(p, w, COMMA);
      assert Cut(o, w.word) && !Says(o, w.word) by { NotBoth(o, w.word); }
      Matches(p.(nread := p.nread + 1), w, o.token, COMMA);
      q := MatchWord(p.(nread := p.nread + 1), w.word, Lower(COMMA), w.missed, w.done);
    } else if p.headerState == w.done {
      NotBoth(o, w.word);
      q := DoneComma(p, kind, w);
    } else {
      PassComma(p, kind);
      q := p.(headerState := Opening(kind), index := 0, nread := p.nread + 1);
    }
  }

  lemma NotBoth(o: Listed, word: string)
    ensures !(Cut(o, word) && Says(o, word))
  {
  }

  lemma DoneComma(p: Parser, kind: ListKind, w: WordValue) returns (q: Parser)
    requires p.state == HeaderValue && WordOf(w, kind) && p.headerState == w.done && p.nread < MAX_HEADER_SIZE
    ensures Byte(p, COMMA) == Go(q, [], [])
    ensures q == p.(headerState := if kind.Codings? then Passing(kind) else Opening(kind), index := q.index,
                    nread := p.nread + 1, flags := q.flags)
    ensures !kind.Codings? ==> q.index == 0
    ensures q.flags == if kind.Codings? then p.flags else WordFlags(p.flags, w)
  {
    hide Byte, ValueChar, WordFlags, Known, IsHeaderChar;
    CommaInValue();
    ValueByte(p, COMMA);
    var x := p.(nread := p.nread + 1);
    DoneFlags(x, w);
    q := if kind.Codings? then x.(headerState := Passing(kind))
         else x.(flags := SetFlags(x).flags, headerState := Opening(kind), index := 0);
    DoneCommaChar(x, kind, w);
  }

  lemma DoneCommaChar(p: Parser, kind: ListKind, w: WordValue)
    requires p.state == HeaderValue && WordOf(w, kind) && p.headerState == w.done
    ensures ValueChar(p, COMMA) ==
            Go(if kind.Codings? then p.(headerState := Passing(kind))
               else p.(flags := SetFlags(p).flags, headerState := Opening(kind), index := 0), [], [])
  {
    hide Lower, MatchWord, LengthDigit, StrictToken;
  }

  // ----- runs

  /** From `p`, before a value, the parser has read this text of it and is `x`. */
  ghost predicate Reads(p: Parser, ev: seq<Event>, n: nat, told: Bytes, x: Parser) {
    && told != [] && x.state == HeaderValue && x.nread == p.nread + |told|
    && RunFrom(Running(p, None, ev, n), told) == Running(x, Some(Piece(HeaderValueText, told)), ev, n + |told|)
    && x == p.(state := HeaderValue, headerState := x.headerState, index := x.index, nread := x.nread, flags := x.flags)
  }

  lemma ReadsOn(p: Parser, ev: seq<Event>, n: nat, told: Bytes, x: Parser, ch: byte, y: Parser)
    requires Reads(p, ev, n, told, x) && Byte(x, ch) == Go(y, [], [])
    requires y == x.(headerState := y.headerState, index := y.index, nread := x.nread + 1, flags := y.flags)
    ensures Reads(p, ev, n, told + [ch], y)
  {
    hide RunFrom, Byte, Next;
    var r := Running(p, None, ev, n);
    RunSplit(r, told, [ch]);
    OneByte(RunFrom(r, told), ch);
    NextInside(x, Piece(HeaderValueText, told), ev, n + |told|, ch, y);
  }

  /** Letters of an option that is heard. */
  lemma {:induction false} LettersRead(p: Parser, ev: seq<Event>, n: nat, told: Bytes, x: Parser, w: WordValue,
                                       l: Bytes, more: Bytes) returns (y: Parser)
    requires Reads(p, ev, n, told, x) && OptionIs(x, w, Letters(l)) && x.nread + |more| <= MAX_HEADER_SIZE
    requires forall k :: 0 <= k < |more| ==> Inner(more[k]) && !IsBlank(more[k])
    ensures Reads(p, ev, n, told + more, y) && OptionIs(y, w, Letters(l + more)) && y.flags == x.flags
    decreases |more|
  {
    hide Reads, OptionIs, Byte, Inner, IsBlank;
    if more == [] {
      y := x;
      assert told + more == told && l + more == l;
    } else {
      var z := LetterTurn(x, w, l, more[0]);
      ReadsOn(p, ev, n, told, x, more[0], z);
      y := LettersRead(p, ev, n, told + [more[0]], z, w, l + [more[0]], more[1..]);
      assert told + [more[0]] + more[1..] == told + more && l + [more[0]] + more[1..] == l + more;
    }
  }

  lemma {:induction false} TailRead(p: Parser, ev: seq<Event>, n: nat, told: Bytes, x: Parser, w: WordValue,
                                    o: Listed, more: Bytes) returns (y: Parser)
    requires Reads(p, ev, n, told, x) && OptionIs(x, w, o) && x.nread + |more| <= MAX_HEADER_SIZE
    requires forall k :: 0 <= k < |more| ==> Inner(more[k])
    requires o.after == [] && more != [] ==> IsBlank(more[0])
    ensures Reads(p, ev, n, told + more, y) && OptionIs(y, w, o.(after := o.after + more)) && y.flags == x.flags
    decreases |more|
  {
    hide Reads, OptionIs, Byte, IsBlank, Inner;
    if more == [] {
      y := x;
      assert told + more == told && o.after + more == o.after;
    } else {
      var z := TailTurn(x, w, o, more[0]);
      ReadsOn(p, ev, n, told, x, more[0], z);
      y := TailRead(p, ev, n, told + [more[0]], z, w, o.(after := o.after + [more[0]]), more[1..]);
      assert told + [more[0]] + more[1..] == told + more && o.after + [more[0]] + more[1..] == o.after + more;
    }
  }

  /** Bytes that are passed over. */
  lemma {:induction false} PassedRead(p: Parser, ev: seq<Event>, n: nat, told: Bytes, x: Parser, more: Bytes)
      returns (y: Parser)
    requires Reads(p, ev, n, told, x) && PassesBy(x.headerState) && x.nread + |more| <= MAX_HEADER_SIZE
    requires forall k :: 0 <= k < |more| ==> Inner(more[k])
    ensures Reads(p, ev, n, told + more, y) && y.headerState == x.headerState && y.flags == x.flags
    decreases |more|
  {
    hide RunFrom, Byte, Inner;
    if more == [] {
      y := x;
      assert told + more == told;
    } else {
      var z := x.(nread := x.nread + 1);
      PassTurn(x, more[0]);
      ReadsOn(p, ev, n, told, x, more[0], z);
      y := PassedRead(p, ev, n, told + [more[0]], z, more[1..]);
      assert told + [more[0]] + more[1..] == told + more;
    }
  }

  /** Spaces before an option that is looked at. */
  lemma {:induction false} SpacesRead(p: Parser, ev: seq<Event>, n: nat, told: Bytes, x: Parser, kind: ListKind,
                                      more: Bytes) returns (y: Parser)
    requires Reads(p, ev, n, told, x) && x.headerState == Opening(kind) && x.nread + |more| <= MAX_HEADER_SIZE
    requires Spaces(more)
    ensures Reads(p, ev, n, told + more, y) && y.headerState == x.headerState && y.flags == x.flags &&
            y.index == x.index
    decreases |more|
  {
    hide RunFrom, Byte;
    if more == [] {
      y := x;
      assert told + more == told;
    } else {
      var z := x.(nread := x.nread + 1);
      OpeningSpace(x, kind);
      ReadsOn(p, ev, n, told, x, SPACE, z);
      y := SpacesRead(p, ev, n, told + [SPACE], z, kind, more[1..]);
      assert told + [SPACE] + more[1..] == told + more;
    }
  }

  // ----- options

  /** Which word an option may be is told by the first letter of its token. */
  lemma WordForIs(kind: ListKind, o: Listed)
    requires o.token != []
    ensures var w := WordFor(kind, o.token[0]);
      WordOf(w, kind) &&
      (Swallows(kind, o) <==> Cut(o, w.word) || (kind.Codings? && Says(o, w.word))) &&
      (kind.Options? ==>
        (Says(o, KEEP_ALIVE) <==> w == CONN_KEEP_ALIVE && Says(o, w.word)) &&
        (Says(o, CLOSE) <==> w == CONN_CLOSE && Says(o, w.word)) &&
        (Says(o, UPGRADE) <==> w == CONN_UPGRADE && Says(o, w.word)))
  {
    ValueWordsArePlain();
    FirstOfToken(o.token, KEEP_ALIVE);
    FirstOfToken(o.token, CLOSE);
    FirstOfToken(o.token, UPGRADE);
    hide Begins, Spaces;
  }

  lemma FirstOfToken(token: Bytes, word: string)
    requires token != [] && word != []
    ensures Begins(token, word) ==> CaseOf(token[0], word[0])
  {
  }

  lemma PartsOf(o: Listed)
    requires IsListed(o)
    ensures forall k :: 0 <= k < |o.token| ==> Inner(o.token[k]) && !IsBlank(o.token[k])
    ensures o.token != [] ==> forall k :: 0 <= k < |o.token[1..]| ==>
              Inner(o.token[1..][k]) &&
              !IsBlank(o.token[1..][k])
    ensures forall k :: 0 <= k < |o.after| ==> Inner(o.after[k])
    ensures o.after != [] ==> IsBlank(o.after[0])
  {
    hide Inner, IsBlank;
  }

  /** The rest of an option, after the first letter of its token. */
  lemma RestRead(p: Parser, ev: seq<Event>, n: nat, told: Bytes, x: Parser, kind: ListKind, o: Listed)
      returns (y: Parser)
    requires IsListed(o) && o.token != [] && x.nread + |o.token| - 1 + |o.after| <= MAX_HEADER_SIZE
    requires Reads(p, ev, n, told + [o.token[0]], x) && OptionIs(x, WordFor(kind, o.token[0]), Letters([o.token[0]]))
    ensures Reads(p, ev, n, told + (o.token + o.after), y) && OptionIs(y, WordFor(kind, o.token[0]), o)
    ensures y.flags == x.flags
  {
    hide *;
    PartsOf(o);
    var w, c, more := WordFor(kind, o.token[0]), o.token[0], o.token[1..];
    var z := LettersRead(p, ev, n, told + [c], x, w, [c], more);
    assert [c] + more == o.token;
    ReadSoFar(p, ev, n, told + [c], x);
    ReadSoFar(p, ev, n, told + [c] + more, z);
    y := TailRead(p, ev, n, told + [c] + more, z, w, Letters(o.token), o.after);
    assert told + [c] + more + o.after == told + (o.token + o.after);
    assert [] + o.after == o.after;
    NoMatterBefore(y, w, o);
  }

  lemma ReadParts(p: Parser, ev: seq<Event>, n: nat, told: Bytes, x: Parser)
    requires Reads(p, ev, n, told, x)
    ensures x.nread == p.nread + |told| &&
            x == p.(state := HeaderValue, headerState := x.headerState, index := x.index, nread := x.nread,
                    flags := x.flags)
  {
    hide RunFrom;
  }

  lemma ReadSoFar(p: Parser, ev: seq<Event>, n: nat, told: Bytes, x: Parser)
    requires Reads(p, ev, n, told, x)
    ensures x.nread == p.nread + |told| && x.state == HeaderValue
  {
  }

  lemma NoMatterBefore(y: Parser, w: WordValue, o: Listed)
    ensures Letters(o.token) == Listed([], o.token, []) &&
            OptionIs(y, w, Listed([], o.token, o.after)) == OptionIs(y, w, o)
  {
    hide Begins;
  }

  /** The first option of a value. */
  lemma FirstRead(p: Parser, ev: seq<Event>, n: nat, kind: ListKind, o: Listed) returns (y: Parser)
    requires p.state == AroundValue(HeaderValueDiscardWs) && p.headerState == NameFor(kind)
    requires IsListed(o) && o.before == [] && o.token != [] && p.nread + |OptionText(o)| <= MAX_HEADER_SIZE
    ensures Reads(p, ev, n, OptionText(o), y) && OptionIs(y, WordFor(kind, o.token[0]), o) && y.flags == p.flags
  {
    hide RunFrom, StateIn, Byte, IsHeaderChar;
    var c, r := o.token[0], Running(p, None, ev, n);
    EnterTurn(p, kind, c);
    var x := p.(state := HeaderValue, headerState := StateIn(Letters([c]), WordFor(kind, c)), index := 0,
                nread := p.nread + 1);
    OneByte(r, c);
    HttpValues.FirstStep(p, c, x, HeaderValueText, ev, n);
    WordForIs(kind, o);
    assert [] + [c] == [c] && OptionText(o) == [] + (o.token + o.after);
    y := RestRead(p, ev, n, [], x, kind, o);
  }

  /** An option that is looked at and heard. */
  lemma HeardRead(p: Parser, ev: seq<Event>, n: nat, told: Bytes, x: Parser, kind: ListKind, o: Listed)
      returns (y: Parser)
    requires Reads(p, ev, n, told, x) && x.headerState == Opening(kind) && x.index == 0
    requires IsListed(o) && !Derails(o) && x.nread + |OptionText(o)| <= MAX_HEADER_SIZE
    ensures Reads(p, ev, n, told + OptionText(o), y) && OptionIs(y, WordFor(kind, o.token[0]), o) && y.flags == x.flags
  {
    hide RunFrom, StateIn, Byte, TokenOf, IsHeaderChar, Lower;
    var c := o.token[0];
    assert Spaces(o.before) by { NoTab(o.before); }
    var z := SpacesRead(p, ev, n, told, x, kind, o.before);
    FirstTurn(z, kind, c);
    var first := z.(headerState := StateIn(Letters([c]), WordFor(kind, c)), nread := z.nread + 1);
    ReadsOn(p, ev, n, told + o.before, z, c, first);
    WordForIs(kind, o);
    y := RestRead(p, ev, n, told + o.before, first, kind, o);
    assert told + o.before + (o.token + o.after) == told + OptionText(o);
  }

  lemma NoTab(s: Bytes)
    requires AllBlank(s) && TAB !in s
    ensures Spaces(s)
  {
  }

  /** An option that is looked at and not heard, and loses the rest. */
  lemma DerailedRead(p: Parser, ev: seq<Event>, n: nat, told: Bytes, x: Parser, kind: ListKind, o: Listed)
      returns (y: Parser)
    requires Reads(p, ev, n, told, x) && x.headerState == Opening(kind)
    requires IsListed(o) && Derails(o) && x.nread + |OptionText(o)| <= MAX_HEADER_SIZE
    ensures Reads(p, ev, n, told + OptionText(o), y) && y.flags == x.flags
    ensures y.headerState == if TAB in o.before || o.token != [] then General else Opening(kind)
  {
    hide RunFrom, Byte, TokenOf, Lower, IsHeaderChar, AllBlank;
    if TAB !in o.before && o.token == [] {
      NoTab(o.before);
      assert OptionText(o) == o.before;
      y := SpacesRead(p, ev, n, told, x, kind, o.before);
    } else {
      var spaces, ch, rest := FirstOdd(o);
      var z := SpacesRead(p, ev, n, told, x, kind, spaces);
      OpeningOdd(z, kind, ch);
      var lost := z.(headerState := General, nread := z.nread + 1);
      ReadsOn(p, ev, n, told + spaces, z, ch, lost);
      y := PassedRead(p, ev, n, told + spaces + [ch], lost, rest);
      assert told + spaces + [ch] + rest == told + OptionText(o);
    }
  }

  /** The byte that derails. */
  lemma FirstOdd(o: Listed) returns (spaces: Bytes, ch: byte, rest: Bytes)
    requires IsListed(o) && Derails(o) && (TAB in o.before || o.token != [])
    ensures OptionText(o) == spaces + [ch] + rest && Spaces(spaces) && ch != SPACE && TokenOf(Lower(ch)) == 0
    ensures Inner(ch) && forall k :: 0 <= k < |rest| ==> Inner(rest[k])
  {
    OptionBytes(o);
    TabIsOdd();
    var i := SpacesFirst(o.before);
    var text := OptionText(o);
    assert i < |o.before| ==> text[i] == o.before[i];
    assert i == |o.before| ==> text[i] == o.token[0];
    assert forall k :: 0 <= k < i ==> text[k] == o.before[k];
    spaces, ch, rest := text[..i], text[i], text[i + 1..];
    hide TokenOf, Lower, Inner;
  }

  lemma TabIsOdd()
    ensures TokenOf(Lower(TAB)) == 0 && TAB != SPACE
  {
  }

  lemma {:induction false} SpacesFirst(s: Bytes) returns (i: nat)
    requires AllBlank(s)
    ensures i <= |s| && (forall k :: 0 <= k < i ==> s[k] == SPACE) && (i < |s| ==> s[i] == TAB)
    ensures TAB in s ==> i < |s|
  {
    if s == [] || s[0] == TAB {
      i := 0;
    } else {
      var j := SpacesFirst(s[1..]);
      i := j + 1;
      assert forall k :: 1 <= k < i ==> s[k] == s[1..][k - 1];
    }
  }

  lemma OptionBytes(o: Listed)
    requires IsListed(o)
    ensures forall k :: 0 <= k < |OptionText(o)| ==> Inner(OptionText(o)[k])
  {
    forall k | 0 <= k < |o.before| ensures Inner(o.before[k]) { assert IsBlank(o.before[k]); }
    hide Inner;
  }

  // ----- lists

  /** The flags that the first `n` options set. */
  ghost function FlagsUpTo(kind: ListKind, os: seq<Listed>, n: nat, fl: Flags): Flags
    requires n <= |os|
  {
    if kind.Codings? then fl
    else fl.(keepAlive := fl.keepAlive || SomeSays(kind, os, n, KEEP_ALIVE),
             close := fl.close || SomeSays(kind, os, n, CLOSE),
             connUpgrade := fl.connUpgrade || SomeSays(kind, os, n, UPGRADE))
  }

  /** Before an option, after a comma. */
  ghost predicate Facing(x: Parser, kind: ListKind, os: seq<Listed>, k: nat)
    requires k <= |os|
  {
    match StageOf(kind, os, k)
    case Listening => x.headerState == Opening(kind) && x.index == 0
    case Passed => x.headerState == Passing(kind)
    case Lost => x.headerState == General
  }

  /** After an option, before the comma or the end. */
  ghost predicate Behind(x: Parser, kind: ListKind, os: seq<Listed>, k: nat)
    requires IsList(os) && k < |os|
  {
    if Heard(kind, os, k) then OptionIs(x, WordFor(kind, os[k].token[0]), os[k])
    else match StageOf(kind, os, k)
      case Passed => x.headerState == Passing(kind)
      case Lost => x.headerState == General
      case Listening => x.headerState == if TAB in os[k].before || os[k].token != [] then General else Opening(kind)
  }

  lemma OptionRead(p: Parser, ev: seq<Event>, n: nat, told: Bytes, x: Parser, kind: ListKind, os: seq<Listed>, k: nat)
      returns (y: Parser)
    requires IsList(os) && 0 < k < |os| && Reads(p, ev, n, told, x) && Facing(x, kind, os, k)
    requires x.nread + |OptionText(os[k])| <= MAX_HEADER_SIZE
    ensures Reads(p, ev, n, told + OptionText(os[k]), y) && Behind(y, kind, os, k) && y.flags == x.flags
  {
    hide Reads, OptionText, IsListed, OptionIs, StageOf, TokenOf, Lower;
    match StageOf(kind, os, k)
    case Listening =>
      if Derails(os[k]) {
        y := DerailedRead(p, ev, n, told, x, kind, os[k]);
      } else {
        y := HeardRead(p, ev, n, told, x, kind, os[k]);
      }
    case Passed =>
      OptionBytes(os[k]);
      y := PassedRead(p, ev, n, told, x, OptionText(os[k]));
    case Lost =>
      OptionBytes(os[k]);
      y := PassedRead(p, ev, n, told, x, OptionText(os[k]));
  }

  lemma FlagsMore(kind: ListKind, os: seq<Listed>, k: nat, fl: Flags)
    requires k < |os|
    ensures Heard(kind, os, k) ==> os[k].token != []
    ensures FlagsUpTo(kind, os, k + 1, fl) ==
            if Heard(kind, os, k) then
              FlagsAfter(kind, FlagsUpTo(kind, os, k, fl), WordFor(kind, os[k].token[0]), os[k])
            else FlagsUpTo(kind, os, k, fl)
    ensures kind.Codings? ==> FlagsUpTo(kind, os, k, fl) == fl
  {
    hide *;
    FlagsUpToIs(kind, os, k, fl);
    FlagsUpToIs(kind, os, k + 1, fl);
    HeardToken(kind, os, k);
    if Heard(kind, os, k) {
      var o, w := os[k], WordFor(kind, os[k].token[0]);
      WordForIs(kind, o);
      NoCoding(w, kind);
      FlagsAfterIs(kind, FlagsUpTo(kind, os, k, fl), w, o);
    }
    OneMoreSays(kind, os, k, KEEP_ALIVE);
    OneMoreSays(kind, os, k, CLOSE);
    OneMoreSays(kind, os, k, UPGRADE);
  }

  lemma HeardToken(kind: ListKind, os: seq<Listed>, k: nat)
    requires k < |os|
    ensures Heard(kind, os, k) ==> os[k].token != []
  {
  }

  lemma FlagsUpToIs(kind: ListKind, os: seq<Listed>, n: nat, fl: Flags)
    requires n <= |os|
    ensures FlagsUpTo(kind, os, n, fl) == if kind.Codings? then fl
      else fl.(keepAlive := fl.keepAlive || SomeSays(kind, os, n, KEEP_ALIVE),
               close := fl.close || SomeSays(kind, os, n, CLOSE),
               connUpgrade := fl.connUpgrade || SomeSays(kind, os, n, UPGRADE))
  {
    hide SomeSays;
  }

  lemma FlagsAfterIs(kind: ListKind, fl: Flags, w: WordValue, o: Listed)
    ensures FlagsAfter(kind, fl, w, o) == if kind.Codings? || !Says(o, w.word) then fl
      else fl.(chunked := fl.chunked || w == TE_CHUNKED, keepAlive := fl.keepAlive || w == CONN_KEEP_ALIVE,
               close := fl.close || w == CONN_CLOSE, connUpgrade := fl.connUpgrade || w == CONN_UPGRADE)
  {
    hide Says;
  }

  lemma NoCoding(w: WordValue, kind: ListKind)
    requires WordOf(w, kind)
    ensures kind.Options? ==> w != TE_CHUNKED
    ensures kind.Codings? ==> w == TE_CHUNKED && w.word == CHUNKED && w != CONN_KEEP_ALIVE && w != CONN_CLOSE &&
                              w != CONN_UPGRADE
  {
  }

  lemma LastFlags(kind: ListKind, fl: Flags, w: WordValue, o: Listed)
    requires WordOf(w, kind)
    ensures kind.Options? ==> FlagsAfter(kind, fl, w, o) == if Says(o, w.word) then WordFlags(fl, w) else fl
    ensures kind.Codings? ==>
      (if Says(o, w.word) then WordFlags(fl, w) else fl) == fl.(chunked := fl.chunked || Says(o, CHUNKED))
  {
    hide Says;
    NoCoding(w, kind);
  }

  lemma CommaRead(p: Parser, ev: seq<Event>, n: nat, told: Bytes, x: Parser, kind: ListKind, os: seq<Listed>, k: nat,
                  fl: Flags)
      returns (y: Parser)
    requires IsList(os) && k < |os| && Reads(p, ev, n, told, x) && Behind(x, kind, os, k)
    requires k > 0 || os[0].token != []
    requires x.nread < MAX_HEADER_SIZE && x.flags == FlagsUpTo(kind, os, k, fl)
    ensures Reads(p, ev, n, told + [COMMA], y) && Facing(y, kind, os, k + 1)
    ensures y.flags == FlagsUpTo(kind, os, k + 1, fl)
  {
    hide RunFrom, Byte, IsListed, TokenOf, Lower, OptionIs, SomeSays, Swallows, Says, FlagsUpTo, FlagsAfter, WordOf,
      Reads,
         WordFor;
    NextStage(kind, os, k);
    FlagsMore(kind, os, k, fl);
    ReadParts(p, ev, n, told, x);
    if Heard(kind, os, k) {
      var w := WordFor(kind, os[k].token[0]);
      WordForIs(kind, os[k]);
      y := CommaTurn(x, kind, w, os[k]);
    } else if x.headerState == Opening(kind) {
      CommaIsOdd();
      OpeningOdd(x, kind, COMMA);
      y := x.(headerState := General, nread := x.nread + 1);
    } else {
      PassComma(x, kind);
      y := if StageOf(kind, os, k).Passed? then x.(headerState := Opening(kind), index := 0, nread := x.nread + 1)
           else x.(nread := x.nread + 1);
    }
    ReadsOn(p, ev, n, told, x, COMMA, y);
  }

  lemma CommaIsOdd()
    ensures TokenOf(Lower(COMMA)) == 0
  {
  }

  lemma NextStage(kind: ListKind, os: seq<Listed>, k: nat)
    requires k < |os|
    ensures StageOf(kind, os, k + 1) ==
            match StageOf(kind, os, k)
            case Lost => Lost
            case Passed => Listening
            case Listening =>
              if k > 0 && Derails(os[k]) then Lost else if Swallows(kind, os[k]) then Passed else Listening
  {
    hide Derails, Swallows;
  }

  lemma OneMoreSays(kind: ListKind, os: seq<Listed>, k: nat, word: string)
    requires k < |os|
    ensures SomeSays(kind, os, k + 1, word) <==>
            SomeSays(kind, os, k, word) || (Heard(kind, os, k) && Says(os[k], word))
  {
    hide Heard, Says;
  }

  /** The first options and the commas after them. */
  lemma {:induction false} OptionsRead(p: Parser, ev: seq<Event>, n: nat, kind: ListKind, os: seq<Listed>, k: nat)
      returns (y: Parser)
    requires p.state == AroundValue(HeaderValueDiscardWs) && p.headerState == NameFor(kind) && IsList(os)
    requires 0 < k < |os| && p.nread + |TextUpTo(os, k)| <= MAX_HEADER_SIZE
    ensures Reads(p, ev, n, TextUpTo(os, k), y) && Facing(y, kind, os, k)
    ensures y.flags == FlagsUpTo(kind, os, k, p.flags)
    decreases k
  {
    hide RunFrom, OptionText, IsListed, OptionIs, Says, Swallows;
    var o, before := os[k - 1], TextUpTo(os, k - 1);
    assert TextUpTo(os, k) == before + OptionText(o) + [COMMA];
    if k == 1 && o.token == [] {
      assert OptionText(o) == [] by { NoText(o); }
      assert before + OptionText(o) + [COMMA] == [COMMA];
      y := EmptyFirst(p, ev, n, kind, os);
    } else if k == 1 {
      assert before + OptionText(o) == OptionText(o);
      var x := FirstRead(p, ev, n, kind, o);
      y := CommaRead(p, ev, n, OptionText(o), x, kind, os, 0, p.flags);
    } else {
      var x := OptionsRead(p, ev, n, kind, os, k - 1);
      var z := OptionRead(p, ev, n, before, x, kind, os, k - 1);
      y := CommaRead(p, ev, n, before + OptionText(o), z, kind, os, k - 1, p.flags);
    }
  }

  lemma NoText(o: Listed)
    requires IsListed(o) && o.before == [] && o.token == []
    ensures OptionText(o) == []
  {
  }

  /** A value that begins with a comma. */
  lemma EmptyFirst(p: Parser, ev: seq<Event>, n: nat, kind: ListKind, os: seq<Listed>) returns (y: Parser)
    requires p.state == AroundValue(HeaderValueDiscardWs) && p.headerState == NameFor(kind) && IsList(os) && |os| > 1
    requires os[0].token == [] && p.nread < MAX_HEADER_SIZE
    ensures Reads(p, ev, n, [COMMA], y) && Facing(y, kind, os, 1) && y.flags == FlagsUpTo(kind, os, 1, p.flags)
  {
    hide RunFrom, Byte, Says, FlagsUpTo, StateIn;
    EnterTurn(p, kind, COMMA);
    FirstLetter(kind, COMMA);
    y := p.(state := HeaderValue, headerState := Passing(kind), index := 0, nread := p.nread + 1);
    OneByte(Running(p, None, ev, n), COMMA);
    HttpValues.FirstStep(p, COMMA, y, HeaderValueText, ev, n);
    EmptySwallows(kind, os[0]);
    NextStage(kind, os, 0);
    assert StageOf(kind, os, 0) == Listening;
    FlagsMore(kind, os, 0, p.flags);
    NoFlagsYet(kind, os, p.flags);
  }

  lemma EmptySwallows(kind: ListKind, o: Listed)
    requires IsListed(o) && o.token == []
    ensures Swallows(kind, o)
  {
    ValueWordsArePlain();
  }

  lemma NoFlagsYet(kind: ListKind, os: seq<Listed>, fl: Flags)
    ensures FlagsUpTo(kind, os, 0, fl) == fl
  {
  }

  /** What a list changes in the parser. */
  ghost function ListEffect(c: Parser, kind: ListKind, os: seq<Listed>): Parser
    requires os != []
  {
    if kind.Codings? then c.(flags := c.flags.(chunked := c.flags.chunked || EndsChunked(os)))
    else c.(flags := FlagsUpTo(kind, os, |os|, c.flags))
  }

  /** The flags at the end of a value. */
  lemma EndFlags(y: Parser, w: WordValue, o: Listed)
    requires OptionIs(y, w, o)
    ensures SetFlags(y).flags == if Says(o, w.word) then WordFlags(y.flags, w) else y.flags
  {
    hide Begins, Says, Cut, SetFlags, WordFlags, Known;
    KnownWord(w);
    DoneFlags(y, w);
  }

  lemma DoneFlags(y: Parser, w: WordValue)
    requires Known(w)
    ensures y.headerState == w.done ==> SetFlags(y).flags == WordFlags(y.flags, w)
    ensures y.headerState == w.matching || y.headerState == w.missed ==> SetFlags(y).flags == y.flags
  {
  }

  lemma CoreSettled(p: Parser, y: Parser, j: nat)
    requires y == p.(state := HeaderValue, headerState := y.headerState, index := y.index, nread := y.nread,
                     flags := y.flags)
    ensures var q := EndOfLine(y, j);
      Ready(q) && Due(q) == [] && q.nread == y.nread + j && Core(Settle(q)) == Core(p).(flags := SetFlags(y).flags)
  {
  }

  lemma PassFlags(y: Parser, kind: ListKind)
    requires y.headerState == Passing(kind) || y.headerState == Opening(kind) || y.headerState.General?
    ensures SetFlags(y).flags == y.flags
  {
  }

  lemma ListFlags(y: Parser, kind: ListKind, os: seq<Listed>, fl: Flags)
    requires IsList(os) && Behind(y, kind, os, |os| - 1) && y.flags == FlagsUpTo(kind, os, |os| - 1, fl)
    ensures SetFlags(y).flags ==
            if kind.Codings? then fl.(chunked := fl.chunked || EndsChunked(os)) else FlagsUpTo(kind, os, |os|, fl)
  {
    hide IsListed, Says, SomeSays, Heard, OptionIs, Swallows, FlagsUpTo, FlagsAfter, SetFlags, WordOf;
    var k := |os| - 1;
    FlagsMore(kind, os, k, fl);
    if Heard(kind, os, k) {
      var w := WordFor(kind, os[k].token[0]);
      WordForIs(kind, os[k]);
      EndFlags(y, w, os[k]);
      LastFlags(kind, FlagsUpTo(kind, os, k, fl), w, os[k]);
    } else {
      PassFlags(y, kind);
    }
  }

  /** A list is read to its end: the flags are those of the options heard. */
  lemma ListRead(p: Parser, ev: seq<Event>, n: nat, kind: ListKind, os: seq<Listed>, j: nat) returns (y: Parser)
    requires p.state == AroundValue(HeaderValueDiscardWs) && p.headerState == NameFor(kind) && IsList(os)
    requires ListText(os) != [] && p.nread + |ListText(os)| <= MAX_HEADER_SIZE
    ensures Reads(p, ev, n, ListText(os), y)
    ensures var q := EndOfLine(y, j);
      Ready(q) && Due(q) == [] && q.nread == p.nread + |ListText(os)| + j &&
      Core(Settle(q)) == ListEffect(Core(p), kind, os)
  {
    hide RunFrom, OptionText, IsListed, Reads, Behind, FlagsUpTo, EndsChunked, Ready, Settle, Due, SetFlags, Facing;
    y := LastRead(p, ev, n, kind, os);
    ReadParts(p, ev, n, ListText(os), y);
    ListFlags(y, kind, os, p.flags);
    CoreSettled(p, y, j);
  }

  lemma LastRead(p: Parser, ev: seq<Event>, n: nat, kind: ListKind, os: seq<Listed>) returns (y: Parser)
    requires p.state == AroundValue(HeaderValueDiscardWs) && p.headerState == NameFor(kind) && IsList(os)
    requires ListText(os) != [] && p.nread + |ListText(os)| <= MAX_HEADER_SIZE
    ensures Reads(p, ev, n, ListText(os), y) && Behind(y, kind, os, |os| - 1)
    ensures y.flags == FlagsUpTo(kind, os, |os| - 1, p.flags)
  {
    hide RunFrom, OptionText, IsListed, OptionIs, FlagsUpTo, Facing;
    var k := |os| - 1;
    if k == 0 {
      assert ListText(os) == [] + OptionText(os[0]) == OptionText(os[0]);
      assert os[0].token != [] by { if os[0].token == [] { NoText(os[0]); } }
      y := FirstRead(p, ev, n, kind, os[0]);
      NoFlagsYet(kind, os, p.flags);
    } else {
      var x := OptionsRead(p, ev, n, kind, os, k);
      ReadParts(p, ev, n, TextUpTo(os, k), x);
      y := OptionRead(p, ev, n, TextUpTo(os, k), x, kind, os, k);
    }
  }

  // ----- every value is a list

  function Glued(parts: seq<Bytes>): Bytes
    requires parts != []
  {
    if |parts| == 1 then parts[0] else parts[0] + [COMMA] + Glued(parts[1..])
  }

  lemma {:induction false} SplitGlues(value: Bytes)
    ensures Glued(Split(value)) == value
  {
    if value != [] {
      SplitGlues(value[1..]);
      var parts := Split(value[1..]);
      if value[0] == COMMA {
        assert ([[]] + parts)[1..] == parts && Split(value) == [[]] + parts;
      } else {
        var more := [[value[0]] + parts[0]] + parts[1..];
        assert more[1..] == parts[1..] && Split(value) == more;
        assert Glued(more) == [value[0]] + Glued(parts);
      }
    }
  }

  lemma {:induction false} PartsInner(value: Bytes)
    requires forall k :: 0 <= k < |value| ==> value[k] == COMMA || Inner(value[k])
    ensures forall part <- Split(value) :: forall k :: 0 <= k < |part| ==> Inner(part[k])
    ensures value != [] && value[0] != COMMA ==> Split(value)[0] != [] && Split(value)[0][0] == value[0]
    ensures value != [] && value[0] == COMMA ==> Split(value)[0] == []
  {
    hide Inner;
    if value != [] {
      PartsInner(value[1..]);
      var parts := Split(value[1..]);
      assert parts[0] in parts && forall part <- parts[1..] :: part in parts;
    }
  }

  lemma PartedIs(t: Bytes)
    ensures OptionText(Parted(t)) == t
    ensures t == [] || !IsBlank(t[0]) ==> Parted(t).before == []
  {
    hide Inner, IsBlank;
    var a := Initial(t, true);
    var b := Initial(t[a..], false);
    assert t[..a] + t[a..a + b] + t[a + b..] == t;
  }

  lemma PartedListed(t: Bytes)
    requires forall k :: 0 <= k < |t| ==> Inner(t[k])
    ensures IsListed(Parted(t))
  {
    hide Inner, IsBlank;
    var a := Initial(t, true);
    SliceInner(t, a, |t|);
    RestListed(t[..a], t[a..]);
    var b := Initial(t[a..], false);
    assert t[a..a + b] == t[a..][..b] && t[a + b..] == t[a..][b..];
  }

  lemma RestListed(before: Bytes, u: Bytes)
    requires AllBlank(before) && (forall k :: 0 <= k < |u| ==> Inner(u[k])) && (u != [] ==> !IsBlank(u[0]))
    ensures var b := Initial(u, false); IsListed(Listed(before, u[..b], u[b..]))
  {
    hide Inner, IsBlank;
    SliceInner(u, Initial(u, false), |u|);
  }

  lemma SliceInner(t: Bytes, i: nat, j: nat)
    requires i <= j <= |t| && forall k :: 0 <= k < |t| ==> Inner(t[k])
    ensures forall k :: 0 <= k < j - i ==> Inner(t[i..j][k])
    ensures j == |t| ==> t[i..j] == t[i..]
  {
    hide Inner;
  }

  lemma {:induction false} FirstApart(os: seq<Listed>, n: nat)
    requires n < |os|
    ensures TextUpTo(os, n + 1) == OptionText(os[0]) + [COMMA] + TextUpTo(os[1..], n)
  {
    hide OptionText;
    if n > 0 {
      FirstApart(os, n - 1);
    }
  }

  lemma {:induction false} ListGlues(os: seq<Listed>, parts: seq<Bytes>)
    requires |os| == |parts| > 0 && forall k :: 0 <= k < |os| ==> OptionText(os[k]) == parts[k]
    ensures ListText(os) == Glued(parts)
    decreases |os|
  {
    hide OptionText;
    var k := |os| - 1;
    if k > 0 {
      ListGlues(os[1..], parts[1..]);
      FirstApart(os, k - 1);
      var more := TextUpTo(os[1..], k - 1);
      assert parts[0] + [COMMA] + more + parts[k] == parts[0] + [COMMA] + (more + parts[k]);
    } else {
      assert [] + parts[0] == parts[0];
    }
  }

  /** Every value is the list of its items. */
  lemma ItemsAreList(value: Bytes)
    requires IsValue(value, false)
    ensures IsList(Items(value)) && ListText(Items(value)) == value
  {
    hide Split, Parted, IsListed, OptionText, Inner, TextUpTo, Glued, IsBlank, IsHeaderChar;
    ValueInner(value);
    var parts, os := Split(value), Items(value);
    SplitGlues(value);
    PartsInner(value);
    forall k | 0 <= k < |os| ensures OptionText(os[k]) == parts[k] && IsListed(os[k]) {
      assert parts[k] in parts;
      PartedIs(parts[k]);
      PartedListed(parts[k]);
    }
    PartedIs(parts[0]);
    ListGlues(os, parts);
  }

  lemma ValueInner(value: Bytes)
    requires IsValue(value, false)
    ensures value != [] && !IsBlank(value[0])
    ensures forall k :: 0 <= k < |value| ==> value[k] == COMMA || Inner(value[k])
  {
    hide IsHeaderChar, IsBlank;
  }

  lemma {:induction false} InitialIs(t: Bytes, n: nat, blank: bool)
    requires n <= |t| && (forall k :: 0 <= k < n ==> IsBlank(t[k]) == blank) && (n < |t| ==> IsBlank(t[n]) != blank)
    ensures Initial(t, blank) == n
  {
    hide IsBlank;
    if n > 0 {
      assert forall k :: 0 <= k < n - 1 ==> t[1..][k] == t[k + 1];
      InitialIs(t[1..], n - 1, blank);
    }
  }

  lemma ListedIsParted(o: Listed)
    requires IsListed(o)
    ensures Parted(OptionText(o)) == o
  {
    hide Inner, IsBlank;
    var t, a, b := OptionText(o), |o.before|, |o.token|;
    assert forall k :: 0 <= k < a ==> t[k] == o.before[k];
    assert b > 0 ==> t[a] == o.token[0];
    InitialIs(t, a, true);
    var u := o.token + o.after;
    assert t[a..] == u;
    assert forall k :: 0 <= k < b ==> u[k] == o.token[k];
    assert b < |u| ==> u[b] == o.after[0];
    InitialIs(u, b, false);
    assert t[..a] == o.before && t[a..a + b] == o.token && t[a + b..] == o.after;
  }

  lemma {:induction false} GluedSplits(parts: seq<Bytes>)
    requires parts != [] && forall part <- parts :: COMMA !in part
    ensures Split(Glued(parts)) == parts
    decreases |parts|, |parts[0]|
  {
    var t := Glued(parts);
    if parts[0] == [] {
      if |parts| > 1 {
        GluedSplits(parts[1..]);
        assert t == [COMMA] + Glued(parts[1..]) && t[1..] == Glued(parts[1..]);
      }
    } else {
      var fewer := [parts[0][1..]] + parts[1..];
      assert fewer[1..] == parts[1..] && parts[0] == [parts[0][0]] + parts[0][1..];
      assert forall part <- parts[1..] :: part in parts;
      assert parts[0] in parts && parts[0][0] in parts[0];
      assert COMMA !in parts[0][1..];
      GluedSplits(fewer);
      assert t == [parts[0][0]] + Glued(fewer) && t[1..] == Glued(fewer);
    }
  }

  /** Every list is the items of its text. */
  lemma ListIsItems(os: seq<Listed>)
    requires IsList(os)
    ensures Items(ListText(os)) == os
  {
    hide Split, Parted, IsListed, OptionText, Glued, TextUpTo;
    var parts := seq(|os|, k requires 0 <= k < |os| => OptionText(os[k]));
    ListGlues(os, parts);
    forall k | 0 <= k < |os| ensures COMMA !in parts[k] && Parted(parts[k]) == os[k] {
      ListedIsParted(os[k]);
      NoComma(os[k]);
    }
    GluedSplits(parts);
  }

  lemma NoComma(o: Listed)
    requires IsListed(o)
    ensures COMMA !in OptionText(o)
  {
    OptionBytes(o);
    forall k | 0 <= k < |OptionText(o)| ensures OptionText(o)[k] != COMMA { assert Inner(OptionText(o)[k]); }
    hide Inner, OptionText;
  }

  // ----- which options are heard

  /** The list has every option heard: none derails but perhaps the first, and none that another
      follows ends right where it still might become a word. */
  lemma {:induction false} AllHeard(kind: ListKind, os: seq<Listed>, k: nat)
    requires k < |os| && os[k].token != [] && (forall j :: 0 < j <= k ==> !Derails(os[j]))
    requires forall j :: 0 <= j < k ==> !Swallows(kind, os[j])
    ensures Heard(kind, os, k)
    decreases k
  {
    hide Derails, Swallows;
    AllListening(kind, os, k);
  }

  lemma {:induction false} AllListening(kind: ListKind, os: seq<Listed>, k: nat)
    requires k < |os| && (forall j :: 0 < j < k ==> !Derails(os[j]))
    requires forall j :: 0 <= j < k ==> !Swallows(kind, os[j])
    ensures StageOf(kind, os, k).Listening?
    decreases k
  {
    hide Derails, Swallows;
    if k > 0 {
      AllListening(kind, os, k - 1);
    }
  }

  const GZIP: Bytes := [103, 122, 105, 112]
  const CHUNKED_BYTES: Bytes := [99, 104, 117, 110, 107, 101, 100]

  /** The value `gzip, chunked` ends in chunked, `chunked, gzip` does not, and to the parser
      `c, chunked` does not either. */
  lemma SwallowedComma()
    ensures EndsChunked(Items(GZIP + [COMMA, SPACE] + CHUNKED_BYTES))
    ensures !EndsChunked(Items(CHUNKED_BYTES + [COMMA, SPACE] + GZIP))
    ensures !EndsChunked(Items([99, COMMA, SPACE] + CHUNKED_BYTES))
  {
    var c := [99];
    Two(GZIP, CHUNKED_BYTES);
    Two(CHUNKED_BYTES, GZIP);
    Two(c, CHUNKED_BYTES);
    assert c + [COMMA, SPACE] + CHUNKED_BYTES == [99, COMMA, SPACE] + CHUNKED_BYTES;
    TwoEnd(GZIP, CHUNKED_BYTES);
    TwoEnd(CHUNKED_BYTES, GZIP);
    TwoEnd(c, CHUNKED_BYTES);
    SpelledWords();
    hide Items, EndsChunked, Spells, Begins;
  }

  lemma SpelledWords()
    ensures Spells(CHUNKED_BYTES, CHUNKED) && !Begins(GZIP, CHUNKED) && !Spells(GZIP, CHUNKED) && Begins([99], CHUNKED)
    ensures |CHUNKED| == 7
  {
    assert CHUNKED[0] == 'c' && CaseOf(99, 'c') && !CaseOf(103, 'c');
  }

  lemma Two(a: Bytes, b: Bytes)
    requires a != [] && b != [] && forall c <- a + b :: TokenOf(c) != 0 && 97 <= c <= 122
    ensures Items(a + [COMMA, SPACE] + b) == [Listed([], a, []), Listed([SPACE], b, [])]
  {
    var os := [Listed([], a, []), Listed([SPACE], b, [])];
    assert forall k :: 0 <= k < |a| ==> a[k] in a + b;
    assert forall k :: 0 <= k < |b| ==> b[k] in a + b;
    assert OptionText(os[0]) == a && OptionText(os[1]) == [SPACE] + b;
    assert TextUpTo(os, 0) == [] && TextUpTo(os, 1) == [] + a + [COMMA];
    assert ListText(os) == a + [COMMA, SPACE] + b;
    assert IsList(os);
    hide Items, IsList, ListText, TokenOf;
    ListIsItems(os);
  }

  lemma TwoEnd(a: Bytes, b: Bytes)
    requires a != [] && b != [] && forall c <- a + b :: TokenOf(c) != 0 && 97 <= c <= 122
    ensures EndsChunked([Listed([], a, []), Listed([SPACE], b, [])]) <==>
            Spells(b, CHUNKED) && !(Begins(a, CHUNKED) && |a| < |CHUNKED|) && !Spells(a, CHUNKED)
  {
    var os := [Listed([], a, []), Listed([SPACE], b, [])];
    assert b[0] in a + b && Lower(b[0]) == b[0];
    NextStage(Codings, os, 0);
    assert StageOf(Codings, os, 0) == Listening;
    hide TokenOf, Spells, Begins;
  }
}
