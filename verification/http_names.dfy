/** The names of header fields, in any mixture of cases, and what the parser makes of their letters. */
module HttpNames {
  import opened Bytes
  import opened Decimals
  import opened HttpTypes
  import opened HttpTurn
  import opened HttpRun
  import opened HttpCut
  import opened HttpFraming
  import opened HttpExecute
  import opened HttpChunks
  import opened HttpLengths
  import opened HttpTrailers

  // ----- words in any mixture of cases

  const CONNECTION: string := "connection"
  const PROXY: string := "proxy-connection"
  const TRANSFER: string := "transfer-encoding"
  const UPGRADE: string := "upgrade"
  const CHUNKED: string := "chunked"
  const KEEP_ALIVE: string := "keep-alive"
  const CLOSE: string := "close"

  /** The letter in either case; any other character as it is. */
  predicate CaseOf(c: byte, w: char) {
    c == w as int || ('a' <= w <= 'z' && c + 32 == w as int)
  }

  /** The bytes are the first letters of the word. */
  ghost predicate Begins(text: Bytes, word: string) {
    |text| <= |word| && forall k :: 0 <= k < |text| ==> CaseOf(text[k], word[k])
  }

  ghost predicate Spells(text: Bytes, word: string) {
    |text| == |word| && Begins(text, word)
  }

  /** The name has the parser take note of a transfer coding. */
  ghost predicate NamesCoding(name: Bytes) {
    |name| >= |TRANSFER| && Begins(name[..|TRANSFER|], TRANSFER)
  }

  // ----- names

  /** What a token may hold besides letters and digits, section 3.2.6 of RFC 7230. */
  const MARKS: string := "!#$%&'*+-.^_`|~"

  /** The table of tokens holds the standard's characters, letters made lower-case. */
  lemma TokenIsStandard(c: byte)
    ensures TokenOf(c) != 0 <==>
            48 <= c <= 57 || 65 <= c <= 90 || 97 <= c <= 122 || exists k :: 0 <= k < |MARKS| && MARKS[k] as int == c
    ensures TokenOf(c) != 0 ==> CaseOf(c, TokenOf(c) as char)
  {
    assert |MARKS| == 15;
    assert MARKS[0] == '!' && MARKS[1] == '#' && MARKS[2] == '$' && MARKS[3] == '%' && MARKS[4] == '&';
    assert MARKS[5] == '\'' && MARKS[6] == '*' && MARKS[7] == '+' && MARKS[8] == '-' && MARKS[9] == '.';
    assert MARKS[10] == '^' && MARKS[11] == '_' && MARKS[12] == '`' && MARKS[13] == '|' && MARKS[14] == '~';
  }

  lemma TokenCase(c: byte, w: char)
    requires 'a' <= w <= 'z' || w == '-'
    ensures CaseOf(c, w) <==> TokenOf(c) == w as int
  {
  }

  /** Letters and hyphens. */
  ghost predicate Plainly(word: string) {
    forall k :: 0 <= k < |word| ==> 'a' <= word[k] <= 'z' || word[k] == '-'
  }

  lemma WordsArePlain()
    ensures Plainly(CONNECTION) && Plainly(PROXY) && Plainly(TRANSFER) && Plainly(UPGRADE) && Plainly(NAME)
    ensures |CONNECTION| == 10 && |PROXY| == 16 && |TRANSFER| == 17 && |UPGRADE| == 7 && |NAME| == 14
  {
  }

  /** The header state after `n` letters, by the word that they begin. */
  function StateFor(n: nat, connection: bool, length: bool, proxy: bool, transfer: bool, upgrade: bool): HState {
    if connection && n <= 3 then (if n == 1 then C else if n == 2 then CO else CON)
    else if connection then (if n == 10 then Connection else MatchingConnection)
    else if length then (if n == 14 then ContentLength else MatchingContentLength)
    else if proxy then (if n == 16 then Connection else MatchingProxyConnection)
    else if transfer then (if n == 17 then TransferEncoding else MatchingTransferEncoding)
    else if upgrade then (if n == 7 then Upgrade else MatchingUpgrade)
    else General
  }

  ghost function StateOf(l: Bytes): HState {
    StateFor(|l|, Begins(l, CONNECTION), Begins(l, NAME), Begins(l, PROXY), Begins(l, TRANSFER), Begins(l, UPGRADE))
  }

  predicate Matching(h: HState) {
    h.C? || h.CO? || h.CON? || h.MatchingConnection? || h.MatchingProxyConnection? || h.MatchingContentLength? ||
    h.MatchingTransferEncoding? || h.MatchingUpgrade?
  }

  /** The parser has read these letters of a name. */
  ghost predicate NameIs(q: Parser, l: Bytes) {
    l != [] && q.headerState == StateOf(l) && (Matching(q.headerState) ==> q.index == |l| - 1)
  }

  lemma BeginsMore(l: Bytes, c: byte, word: string)
    ensures Begins(l + [c], word) <==> Begins(l, word) && |l| < |word| && CaseOf(c, word[|l|])
  {
    var m := l + [c];
    assert m[|l|] == c && m[..|l|] == l;
    assert forall k :: 0 <= k < |l| ==> m[k] == l[k];
  }

  /** No name begins two of the words, but for the first three letters of two of them. */
  lemma BeginsOne(l: Bytes)
    requires l != []
    ensures Begins(l, CONNECTION) && |l| >= 4 ==> !Begins(l, NAME)
    ensures Begins(l, CONNECTION) && |l| <= 3 <==> Begins(l, NAME) && |l| <= 3
    ensures Begins(l, CONNECTION) || Begins(l, NAME) ==>
              !Begins(l, PROXY) && !Begins(l, TRANSFER) &&
              !Begins(l, UPGRADE)
    ensures Begins(l, PROXY) ==> !Begins(l, TRANSFER) && !Begins(l, UPGRADE)
    ensures Begins(l, TRANSFER) ==> !Begins(l, UPGRADE)
  {
    assert CONNECTION[0] == NAME[0] == 'c' && CONNECTION[1] == NAME[1] == 'o' && CONNECTION[2] == NAME[2] == 'n';
    assert CONNECTION[3] == 'n' && NAME[3] == 't' && PROXY[0] == 'p' && TRANSFER[0] == 't' && UPGRADE[0] == 'u';
    assert Begins(l, CONNECTION) && |l| >= 4 ==> CaseOf(l[3], 'n');
    assert Begins(l, NAME) && |l| >= 4 ==> CaseOf(l[3], 't');
    forall k | 0 <= k < |l| && |l| <= 3 ensures CONNECTION[k] == NAME[k] { }
  }

  /** What a turn within a field leaves alone: all but where the parser stands. */
  function Core(p: Parser): Parser {
    p.(headerState := General, index := 0, nread := 0, state := Dead)
  }

  /** The transfer coding is noted with the last letter of its name. */
  ghost function Noted(c: Parser, noted: bool): Parser {
    c.(transferEncoding := c.transferEncoding || noted)
  }

  /** One step of a word that the letters begin. */
  lemma WordStep(q: Parser, l: Bytes, ch: byte, word: string, done: HState)
    requires l != [] && q.index == |l| - 1 && |l| < |word| <= 17 && Begins(l, word) && Plainly(word) && TokenOf(ch) != 0
    ensures var q' := MatchWord(q, word, TokenOf(ch), General, done); var l' := l + [ch];
      q'.index == |l| && Core(q') == Core(q) && q' == q.(index := |l|, headerState := q'.headerState) &&
      (if Begins(l', word) then q'.headerState == if |l'| == |word| then done else q.headerState
       else q'.headerState == General)
  {
    BeginsMore(l, ch, word);
    TokenCase(ch, word[|l|]);
    hide TokenOf;
  }

  /** Another letter can only go on with the words begun. */
  lemma OtherWords(l: Bytes, ch: byte)
    requires l != []
    ensures Begins(l + [ch], CONNECTION) <==> Begins(l, CONNECTION) && |l| < 10 && CaseOf(ch, CONNECTION[|l|])
    ensures Begins(l + [ch], NAME) <==> Begins(l, NAME) && |l| < 14 && CaseOf(ch, NAME[|l|])
    ensures Begins(l + [ch], PROXY) <==> Begins(l, PROXY) && |l| < 16 && CaseOf(ch, PROXY[|l|])
    ensures Begins(l + [ch], TRANSFER) <==> Begins(l, TRANSFER) && |l| < 17 && CaseOf(ch, TRANSFER[|l|])
    ensures Begins(l + [ch], UPGRADE) <==> Begins(l, UPGRADE) && |l| < 7 && CaseOf(ch, UPGRADE[|l|])
    ensures Begins(l, CONNECTION) ==> |l| <= 10
    ensures Begins(l, NAME) ==> |l| <= 14
    ensures Begins(l, PROXY) ==> |l| <= 16
    ensures Begins(l, TRANSFER) ==> |l| <= 17
    ensures Begins(l, UPGRADE) ==> |l| <= 7
  {
    WordsArePlain();
    BeginsMore(l, ch, CONNECTION);
    BeginsMore(l, ch, NAME);
    BeginsMore(l, ch, PROXY);
    BeginsMore(l, ch, TRANSFER);
    BeginsMore(l, ch, UPGRADE);
  }

  /** A letter of a name after the first. */
  lemma NameLetter(q: Parser, l: Bytes, ch: byte)
    requires NameIs(q, l) && TokenOf(ch) != 0
    ensures FieldChar(q, TokenOf(ch)).Some?
    ensures var q', l' := FieldChar(q, TokenOf(ch)).value, l + [ch];
      NameIs(q', l') && Core(q') == Noted(Core(q), StateOf(l').TransferEncoding?) &&
      q'.state == q.state && q'.nread == q.nread
  {
    hide TokenOf, Begins, StateOf, MatchWord, Core;
    if q.headerState.C? || q.headerState.CO? || q.headerState.CON? {
      EarlyLetter(q, l, ch);
    } else if q.headerState.General? {
      GeneralLetter(q, l, ch);
    } else if Matching(q.headerState) {
      WordLetter(q, l, ch);
    } else {
      StateNamed(l);
      PastLetter(q, l, ch);
    }
  }

  lemma StateNamed(l: Bytes)
    ensures var h := StateOf(l);
      h.General? || Matching(h) || h.Connection? || h.ContentLength? || h.TransferEncoding? || h.Upgrade?
  {
    hide Begins;
  }

  lemma EarlyLetter(q: Parser, l: Bytes, ch: byte)
    requires NameIs(q, l) && TokenOf(ch) != 0 && (q.headerState.C? || q.headerState.CO? || q.headerState.CON?)
    ensures FieldChar(q, TokenOf(ch)).Some?
    ensures var q' := FieldChar(q, TokenOf(ch)).value;
            NameIs(q', l + [ch]) && !StateOf(l + [ch]).TransferEncoding? &&
            Core(q') == Core(q) && q'.state == q.state && q'.nread == q.nread
  {
    EarlyState(l, ch);
    TokenCase(ch, 'o');
    TokenCase(ch, 'n');
    TokenCase(ch, 't');
    hide TokenOf, Begins, CaseOf, StateOf, MatchWord;
  }

  lemma EarlyState(l: Bytes, ch: byte)
    requires l != [] && (StateOf(l).C? || StateOf(l).CO? || StateOf(l).CON?)
    ensures |l| == if StateOf(l).C? then 1 else if StateOf(l).CO? then 2 else 3
    ensures StateOf(l + [ch]) ==
            if |l| == 1 then (if CaseOf(ch, 'o') then CO else General)
            else if |l| == 2 then (if CaseOf(ch, 'n') then CON else General)
            else if CaseOf(ch, 'n') then MatchingConnection
            else if CaseOf(ch, 't') then MatchingContentLength else General
  {
    BeginsOne(l);
    OtherWords(l, ch);
    FourthLetters();
    hide Begins, CaseOf;
  }

  lemma FourthLetters()
    ensures CONNECTION[1] == NAME[1] == 'o' && CONNECTION[2] == NAME[2] == 'n' && CONNECTION[3] == 'n' && NAME[3] == 't'
  {
  }

  lemma GeneralLetter(q: Parser, l: Bytes, ch: byte)
    requires NameIs(q, l) && TokenOf(ch) != 0 && q.headerState.General?
    ensures FieldChar(q, TokenOf(ch)) == Some(q) && NameIs(q, l + [ch]) && StateOf(l + [ch]) == General
  {
    OtherWords(l, ch);
    hide TokenOf, Begins, CaseOf;
  }

  lemma PastLetter(q: Parser, l: Bytes, ch: byte)
    requires NameIs(q, l) && TokenOf(ch) != 0
    requires q.headerState.Connection? || q.headerState.ContentLength? || q.headerState.TransferEncoding? ||
             q.headerState.Upgrade?
    ensures FieldChar(q, TokenOf(ch)) == Some(q.(headerState := General)) && StateOf(l + [ch]) == General
    ensures NameIs(q.(headerState := General), l + [ch]) && Core(q.(headerState := General)) == Core(q)
  {
    PastState(l, ch);
    PastTurn(q, TokenOf(ch));
    hide TokenOf, StateOf, FieldChar, Core;
  }

  lemma PastTurn(q: Parser, c: byte)
    requires q.headerState.Connection? || q.headerState.ContentLength? || q.headerState.TransferEncoding? ||
             q.headerState.Upgrade?
    ensures FieldChar(q, c) == Some(q.(headerState := General)) && Core(q.(headerState := General)) == Core(q)
  {
    hide MatchWord;
  }

  lemma PastState(l: Bytes, ch: byte)
    requires l != []
    requires var h := StateOf(l); h.Connection? || h.ContentLength? || h.TransferEncoding? || h.Upgrade?
    ensures StateOf(l + [ch]) == General
  {
    BeginsOne(l);
    OtherWords(l, ch);
    hide Begins, CaseOf;
  }

  lemma WordLetter(q: Parser, l: Bytes, ch: byte)
    requires NameIs(q, l) && TokenOf(ch) != 0 && Matching(q.headerState)
    requires !(q.headerState.C? || q.headerState.CO? || q.headerState.CON?)
    ensures FieldChar(q, TokenOf(ch)).Some?
    ensures var q', l' := FieldChar(q, TokenOf(ch)).value, l + [ch];
      NameIs(q', l') && Core(q') == Noted(Core(q), StateOf(l').TransferEncoding?) &&
      q'.state == q.state && q'.nread == q.nread
  {
    hide MatchWord, TokenOf, StateOf;
    match q.headerState
    case MatchingConnection => MatchLetter(q, l, ch, CONNECTION, Connection);
    case MatchingProxyConnection => MatchLetter(q, l, ch, PROXY, Connection);
    case MatchingContentLength => MatchLetter(q, l, ch, NAME, ContentLength);
    case MatchingTransferEncoding => MatchLetter(q, l, ch, TRANSFER, TransferEncoding);
    case MatchingUpgrade => MatchLetter(q, l, ch, UPGRADE, Upgrade);
    case _ =>
  }

  /** Where the letters begin one word of more than three. */
  ghost predicate StatesOf(word: string, matching: HState, done: HState) {
    match matching
    case MatchingConnection => word == CONNECTION && done == Connection
    case MatchingProxyConnection => word == PROXY && done == Connection
    case MatchingContentLength => word == NAME && done == ContentLength
    case MatchingTransferEncoding => word == TRANSFER && done == TransferEncoding
    case MatchingUpgrade => word == UPGRADE && done == Upgrade
    case _ => false
  }

  lemma MatchLetter(q: Parser, l: Bytes, ch: byte, word: string, done: HState)
    requires NameIs(q, l) && TokenOf(ch) != 0 && StatesOf(word, q.headerState, done)
    ensures var q', l' := MatchWord(q, word, TokenOf(ch), General, done), l + [ch];
      NameIs(q', l') && Core(q') == Core(q) && q'.state == q.state && q'.nread == q.nread &&
      q'.headerState == StateOf(l') && StateOf(l') in {General, done, q.headerState}
  {
    hide MatchWord, TokenOf, Begins, CaseOf, StateOf, Plainly, Core;
    LettersShort(l, word, q.headerState, done);
    assert Plainly(word) by { WordsArePlain(); }
    WordStep(q, l, ch, word, done);
    NextState(l, ch, word, q.headerState, done);
  }

  lemma LettersShort(l: Bytes, word: string, matching: HState, done: HState)
    requires l != [] && StateOf(l) == matching && StatesOf(word, matching, done)
    ensures |l| < |word| <= 17 && Begins(l, word)
  {
    hide Begins, CaseOf, Plainly;
    WordsArePlain();
    BeginsOne(l);
    OtherWords(l, 0);
    NextStateFor(|l|, Begins(l, CONNECTION), Begins(l, NAME), Begins(l, PROXY), Begins(l, TRANSFER), Begins(l, UPGRADE),
                 false, false, false, false, false, matching);
  }

  lemma NextState(l: Bytes, ch: byte, word: string, matching: HState, done: HState)
    requires l != [] && StateOf(l) == matching && StatesOf(word, matching, done)
    ensures StateOf(l + [ch]) == if !Begins(l + [ch], word) then General
                                 else if |l| + 1 == |word| then done else matching
  {
    hide Begins, CaseOf, Plainly;
    WordsArePlain();
    BeginsOne(l);
    BeginsOne(l + [ch]);
    OtherWords(l, ch);
    NextStateFor(|l|, Begins(l, CONNECTION), Begins(l, NAME), Begins(l, PROXY), Begins(l, TRANSFER), Begins(l, UPGRADE),
                 Begins(l + [ch], CONNECTION), Begins(l + [ch], NAME), Begins(l + [ch], PROXY),
                 Begins(l + [ch], TRANSFER), Begins(l + [ch], UPGRADE), matching);
  }

  /** The same, on which words are begun before and after the letter. */
  lemma NextStateFor(n: nat, a: bool, b: bool, c: bool, d: bool, e: bool, a': bool, b': bool, c': bool, d': bool,
                     e': bool, matching: HState)
    requires n > 0 && StateFor(n, a, b, c, d, e) == matching && (a' ==> a) && (b' ==> b) && (c' ==> c) && (d' ==> d)
    requires (e' ==> e) && (a && n >= 4 ==> !b) && (a && n <= 3 <==> b && n <= 3) && (a || b ==> !c && !d && !e)
    requires (c ==> !d && !e) && (d ==> !e) && (a ==> n <= 10) && (b ==> n <= 14) && (c ==> n <= 16) &&
             (d ==> n <= 17) && (e ==> n <= 7)
    ensures var next := StateFor(n + 1, a', b', c', d', e');
      match matching
      case MatchingConnection => a && n < 10 && next == if !a' then General else if n + 1 == 10 then Connection
        else matching
      case MatchingContentLength =>
        b && n < 14 && next == if !b' then General else if n + 1 == 14 then ContentLength else matching
      case MatchingProxyConnection =>
        c && n < 16 && next == if !c' then General else if n + 1 == 16 then Connection else matching
      case MatchingTransferEncoding =>
        d && n < 17 && next == if !d' then General else if n + 1 == 17 then TransferEncoding else matching
      case MatchingUpgrade => e && n < 7 && next == if !e' then General else if n + 1 == 7 then Upgrade else matching
      case _ => true
  {
  }

  // ----- the beginning of a field

  /** A field, or the end of the fields, comes next. */
  predicate Ready(q: Parser) {
    q.state == Ending(HeaderFieldStart) || q.state == AroundValue(HeaderValueLws) ||
    (q.state == AroundValue(HeaderValueDiscardLws) && !q.headerState.ContentLength?)
  }

  /** With the flags that the last value sets, which are set when the next line begins. */
  function Settle(q: Parser): Parser {
    if q.state.AroundValue? then SetFlags(q) else q
  }

  /** An empty value is told when the next line begins. */
  function Due(q: Parser): seq<Event> {
    if q.state == AroundValue(HeaderValueDiscardLws) then [Data(HeaderValueText, [])] else []
  }

  function DueOps(q: Parser): seq<Op> {
    if q.state == AroundValue(HeaderValueDiscardLws) then [Empty(HeaderValueText)] else []
  }

  lemma FirstState(ch: byte)
    requires TokenOf(ch) != 0
    ensures var c := TokenOf(ch);
            StateOf([ch]) == if c == 99 then C else if c == 112 then MatchingProxyConnection
                             else if c == 116 then MatchingTransferEncoding else if c == 117 then MatchingUpgrade
                             else General
  {
    WordsArePlain();
    assert CONNECTION[0] == NAME[0] == 'c' && PROXY[0] == 'p' && TRANSFER[0] == 't' && UPGRADE[0] == 'u';
    TokenCase(ch, 'c');
    TokenCase(ch, 'p');
    TokenCase(ch, 't');
    TokenCase(ch, 'u');
    assert forall word <- [CONNECTION, NAME, PROXY, TRANSFER, UPGRADE] :: Begins([ch], word) <==> CaseOf(ch, word[0]);
    hide TokenOf, CaseOf;
  }

  /** The parser after the first letter of a name. */
  ghost function Begun(q: Parser, ch: byte): Parser {
    Settle(q).(state := HeaderField, nread := q.nread + 1, index := 0, headerState := StateOf([ch]))
  }

  lemma BeginTurn(q: Parser, ch: byte)
    requires Ready(q) && q.nread < MAX_HEADER_SIZE && TokenOf(ch) != 0
    ensures Byte(q, ch) == Go(Begun(q, ch), DueOps(q) + [Open(HeaderFieldText)], [])
  {
    hide AlmostDone, TokenOf, StateOf, SetFlags, FieldStart, Before;
    TokenIsNoEnd(ch);
    CountKept(q);
    FieldBegins(Settle(q).(nread := q.nread + 1), ch);
    BeforeBegin(FieldStart(Settle(q).(nread := q.nread + 1), ch), DueOps(q));
  }

  lemma FieldBegins(p: Parser, ch: byte)
    requires TokenOf(ch) != 0
    ensures FieldStart(p, ch) ==
            Go(p.(state := HeaderField, index := 0, headerState := StateOf([ch])), [Open(HeaderFieldText)], [])
  {
    FirstState(ch);
    TokenIsNoEnd(ch);
    hide AlmostDone, TokenOf, StateOf;
  }

  lemma BeforeBegin(t: Turn, ops: seq<Op>)
    requires t.Go?
    ensures Before(ops, t) == Go(t.p, ops + t.ops, t.notes) && Before([], t) == t
  {
    assert [] + t.ops == t.ops;
  }

  lemma CountKept(q: Parser)
    ensures SetFlags(q.(nread := q.nread + 1)) == SetFlags(q).(nread := q.nread + 1)
  {
  }

  lemma BeginStep(q: Parser, ch: byte, ev: seq<Event>, n: nat)
    requires Ready(q) && q.nread < MAX_HEADER_SIZE && TokenOf(ch) != 0
    ensures Next(Running(q, None, ev, n), ch) ==
            Running(Begun(q, ch), Some(Piece(HeaderFieldText, [ch])), ev + Due(q), n + 1)
  {
    BeginTurn(q, ch);
    hide Byte, Begun;
    DuePerformed(q, ch);
    assert ev + Due(q) + [] == ev + Due(q) && [] + [ch] == [ch];
  }

  lemma DuePerformed(q: Parser, ch: byte)
    ensures PerformAll(None, DueOps(q) + [Open(HeaderFieldText)], ch) == (Some(Piece(HeaderFieldText, [])), Due(q))
    ensures PerformAll(None, DueOps(q), ch) == (None, Due(q))
  {
    OnePerformed(None, [Open(HeaderFieldText)], ch);
    if DueOps(q) == [] {
      assert [] + [Open(HeaderFieldText)] == [Open(HeaderFieldText)];
    } else {
      var ops := DueOps(q) + [Open(HeaderFieldText)];
      assert ops[0] == Empty(HeaderValueText) && ops[1..] == [Open(HeaderFieldText)];
      OnePerformed(None, DueOps(q), ch);
      assert [Data(HeaderValueText, [])] + [] == [Data(HeaderValueText, [])];
    }
  }

  // ----- the name, the colon and what stands before the value

  /** The run has gone on from `q` through a name. */
  ghost predicate Naming(r: Run, q: Parser, l: Bytes, ev: seq<Event>, n: nat) {
    && r.Running? && r == Running(r.p, Some(Piece(HeaderFieldText, l)), ev, n)
    && r.p.state == HeaderField && NameIs(r.p, l) && r.p.nread == q.nread + |l|
    && Core(r.p) == Noted(Core(Settle(q)), NamesCoding(l))
  }

  lemma CodingNoted(l: Bytes, ch: byte)
    requires l != []
    ensures NamesCoding(l + [ch]) <==> NamesCoding(l) || StateOf(l + [ch]).TransferEncoding?
    ensures |l| < 17 ==> !NamesCoding(l)
  {
    WordsArePlain();
    var m := l + [ch];
    BeginsOne(m);
    if |m| >= 17 {
      assert |l| >= 17 ==> m[..17] == l[..17];
      assert |m| == 17 ==> m[..17] == m;
    }
    assert StateOf(m).TransferEncoding? <==> Begins(m, TRANSFER) && |m| == 17 by { TransferState(m); }
  }

  lemma TransferState(l: Bytes)
    requires l != []
    ensures StateOf(l).TransferEncoding? <==> Begins(l, TRANSFER) && |l| == 17
  {
    BeginsOne(l);
    hide Begins;
  }

  lemma NamingStarts(q: Parser, ch: byte, ev: seq<Event>, n: nat)
    requires Ready(q) && q.nread < MAX_HEADER_SIZE && TokenOf(ch) != 0
    ensures Naming(Next(Running(q, None, ev, n), ch), q, [ch], ev + Due(q), n + 1)
  {
    BeginStep(q, ch, ev, n);
    WordsArePlain();
    hide Next, TokenOf, StateOf, SetFlags;
  }

  lemma NamingGoesOn(r: Run, q: Parser, l: Bytes, ch: byte, ev: seq<Event>, n: nat)
    requires Naming(r, q, l, ev, n) && TokenOf(ch) != 0 && q.nread + |l| < MAX_HEADER_SIZE
    ensures Naming(Next(r, ch), q, l + [ch], ev, n + 1)
  {
    hide Byte, Next, TokenOf, StateOf, FieldChar, Settle, NamesCoding, NameIs;
    NameNonEmpty(r.p, l);
    var p := r.p.(nread := r.p.nread + 1);
    ByteInField(r.p, ch);
    SameName(r.p, p, l);
    NameLetter(p, l, ch);
    NextInside(r.p, Piece(HeaderFieldText, l), ev, n, ch, FieldChar(p, TokenOf(ch)).value.(state := HeaderField));
    CodingNoted(l, ch);
  }

  lemma NameNonEmpty(q: Parser, l: Bytes)
    requires NameIs(q, l)
    ensures l != []
  {
  }

  lemma SameName(q: Parser, p: Parser, l: Bytes)
    requires NameIs(q, l) && p == q.(nread := p.nread)
    ensures NameIs(p, l) && Core(p) == Core(q)
  {
  }

  lemma {:induction false} NamingRuns(q: Parser, name: Bytes, k: nat, ev: seq<Event>, n: nat)
    requires Ready(q) && IsName(name) && 1 <= k <= |name| && q.nread + k <= MAX_HEADER_SIZE
    ensures Naming(RunFrom(Running(q, None, ev, n), name[..k]), q, name[..k], ev + Due(q), n + k)
    decreases k
  {
    hide TokenOf, Naming, RunFrom, Next;
    var r0 := Running(q, None, ev, n);
    RunLast(r0, name[..k]);
    assert name[..k][..k - 1] == name[..k - 1];
    if k == 1 {
      assert name[..0] == [] && name[..1] == [name[0]];
      NothingRun(r0);
      NamingStarts(q, name[0], ev, n);
    } else {
      NamingRuns(q, name, k - 1, ev, n);
      NamingGoesOn(RunFrom(r0, name[..k - 1]), q, name[..k - 1], name[k - 1], ev + Due(q), n + k - 1);
      assert name[..k - 1] + [name[k - 1]] == name[..k];
    }
  }

  /** Where the value is about to begin. */
  ghost predicate Named(r: Run, q: Parser, name: Bytes, ev: seq<Event>, n: nat, nread: nat) {
    && r.Running? && r == Running(r.p, None, ev, n)
    && r.p.state == AroundValue(HeaderValueDiscardWs) && r.p.headerState == StateOf(name) && r.p.nread == nread
    && Core(r.p) == Noted(Core(Settle(q)), NamesCoding(name))
  }

  lemma NameColon(q: Parser, name: Bytes, ev: seq<Event>, n: nat)
    requires Ready(q) && IsName(name) && q.nread + |name| + 1 <= MAX_HEADER_SIZE
    ensures Named(RunFrom(Running(q, None, ev, n), name + [COLON]), q, name,
                  ev + Due(q) + [Data(HeaderFieldText, name)], n + |name| + 1, q.nread + |name| + 1)
  {
    hide *;
    var r0 := Running(q, None, ev, n);
    RunSplit(r0, name, [COLON]);
    NameHasLetters(name);
    NamingRuns(q, name, |name|, ev, n);
    assert name[..|name|] == name;
    var r := RunFrom(r0, name);
    OneByte(r, COLON);
    NamingThenColon(r, q, name, ev + Due(q), n + |name|);
  }

  /** The parser notes a transfer coding after every name that begins with Transfer-Encoding, but
      looks at the value only after that name itself. */
  lemma LongerNamesCount(q: Parser, name: Bytes, ev: seq<Event>, n: nat)
    requires Ready(q) && IsName(name) && q.nread + |name| + 1 <= MAX_HEADER_SIZE
    ensures var r := RunFrom(Running(q, None, ev, n), name + [COLON]);
      r.Running? && (r.p.transferEncoding <==> Settle(q).transferEncoding || NamesCoding(name)) &&
      (r.p.headerState.TransferEncoding? <==> Spells(name, TRANSFER))
  {
    hide RunFrom, Settle, NamesCoding, Begins;
    NameColon(q, name, ev, n);
    NameHasLetters(name);
    BeginsOne(name);
    WordsArePlain();
  }

  lemma NameHasLetters(name: Bytes)
    requires IsName(name)
    ensures name != []
  {
  }

  lemma NamingThenColon(r: Run, q: Parser, name: Bytes, ev: seq<Event>, n: nat)
    requires Naming(r, q, name, ev, n) && q.nread + |name| + 1 <= MAX_HEADER_SIZE
    ensures Named(Next(r, COLON), q, name, ev + [Data(HeaderFieldText, name)], n + 1, q.nread + |name| + 1)
  {
    hide Next, StateOf, NamesCoding, Settle;
    ColonTurn(r.p, name, ev, n);
  }

  lemma HeadRuns(q: Parser, f: Field, ev: seq<Event>, n: nat)
    requires Ready(q) && IsName(f.name) && Leading(f.lead) && q.nread + |f.name| + 1 + |f.lead| <= MAX_HEADER_SIZE
    ensures var k := |f.name| + 1 + |f.lead|;
      Named(RunFrom(Running(q, None, ev, n), f.name + [COLON] + f.lead), q, f.name,
            ev + Due(q) + [Data(HeaderFieldText, f.name)], n + k, q.nread + k)
  {
    hide RunFrom, TokenOf, StateOf, NamesCoding, Settle, Due, Leading, IsName;
    var r0 := Running(q, None, ev, n);
    RunSplit(r0, f.name + [COLON], f.lead);
    NameColon(q, f.name, ev, n);
    var r := RunFrom(r0, f.name + [COLON]);
    LeadRun(r.p, f.lead, ev + Due(q) + [Data(HeaderFieldText, f.name)], n + |f.name| + 1);
  }
}
