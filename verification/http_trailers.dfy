/** Chunked bodies with trailer fields (section 4.1.2 of RFC 7230), and whole bodies as a session
    receives them, piece by piece. */
module HttpTrailers {
  import opened Bytes
  import opened HttpTypes
  import opened HttpTurn
  import opened HttpRun
  import opened HttpCut
  import opened HttpFraming
  import opened HttpExecute
  import opened HttpChunks
  import opened HttpLengths

  /** A trailer field: its name, what stands before its value, the value, and a line end. */
  datatype Field = Field(name: Bytes, lead: Bytes, value: Bytes, end: Bytes)

  predicate IsName(name: Bytes) {
    name != [] && forall k :: 0 <= k < |name| ==> TokenOf(name[k]) != 0
  }

  predicate IsValue(value: Bytes, lenient: bool) {
    value != [] && !IsBlank(value[0]) &&
    forall k :: 0 <= k < |value| ==> value[k] != CR && value[k] != LF && (lenient || IsHeaderChar(value[k]))
  }

  /** Any field but a Content-Length, which the parser would check. */
  predicate WellFormedField(f: Field, lenient: bool) {
    IsName(f.name) && !SaysLength(f.name) && Leading(f.lead) && IsValue(f.value, lenient) && LineEnd(f.end)
  }

  ghost predicate AllWellFormed(fs: seq<Field>, lenient: bool) {
    forall k :: 0 <= k < |fs| ==> WellFormedField(fs[k], lenient)
  }

  function FieldText(f: Field): Bytes {
    f.name + [COLON] + f.lead + (f.value + f.end)
  }

  function TrailerText(fs: seq<Field>): Bytes {
    if fs == [] then [] else FieldText(fs[0]) + TrailerText(fs[1..])
  }

  function FieldEvents(f: Field): seq<Event> {
    [Data(HeaderFieldText, f.name), Data(HeaderValueText, f.value)]
  }

  function TrailerEvents(fs: seq<Field>): seq<Event> {
    if fs == [] then [] else FieldEvents(fs[0]) + TrailerEvents(fs[1..])
  }

  // ----- what a trailer leaves alone

  ghost predicate Kept(p: Parser, q: Parser) {
    p.contentLength == q.contentLength && p.upgrade == q.upgrade && p.lenient == q.lenient &&
    p.flags.trailing == q.flags.trailing
  }

  /** The run has gone on from `q`, with this under way, told, read and counted. */
  ghost predicate Ran(r: Run, q: Parser, open: Option<Piece>, ev: seq<Event>, n: nat, nread: nat) {
    r.Running? && r == Running(r.p, open, ev, n) && Kept(r.p, q) && r.p.nread == nread
  }

  /** A field, or the end of the trailer, comes next. */
  predicate BeforeField(s: State) {
    s == Ending(HeaderFieldStart) || s == AroundValue(HeaderValueLws)
  }

  // ----- names

  /** The letters match the beginning of the name of the length header. */
  ghost predicate BeginsLength(letters: Bytes, k: nat) {
    |letters| == k <= |NAME| && forall i :: 0 <= i < k ==> TokenOf(letters[i]) == NAME[i] as int
  }

  /** The header state after the letters of a name: it stands for the length header only after
      the letters of that. */
  ghost predicate NameOk(p: Parser, letters: Bytes) {
    NameState(p.headerState) &&
    match p.headerState
    case C => p.index == 0 && BeginsLength(letters, 1)
    case CO => p.index == 1 && BeginsLength(letters, 2)
    case CON => p.index == 2 && BeginsLength(letters, 3)
    case MatchingContentLength => p.index + 1 < |NAME| && BeginsLength(letters, p.index + 1)
    case ContentLength => BeginsLength(letters, |NAME|)
    case _ => true
  }

  lemma NameBegins(q: Parser, ch: byte)
    requires BeforeField(q.state) && TokenOf(ch) != 0 && q.nread < MAX_HEADER_SIZE
    ensures var t := Byte(q, ch);
            t.Go? && t == Go(t.p, [Open(HeaderFieldText)], []) && t.p.state == HeaderField && NameOk(t.p, [ch]) &&
            Kept(t.p, q) && t.p.nread == q.nread + 1
  {
    hide AlmostDone, TokenOf;
    TokenIsNoEnd(ch);
  }

  lemma TokenIsNoEnd(ch: byte)
    requires TokenOf(ch) != 0
    ensures ch != CR && ch != LF && ch != SPACE && ch != TAB && ch != COLON
  {
  }

  lemma NameGoesOn(q: Parser, letters: Bytes, ch: byte)
    requires q.state.HeaderField? && NameOk(q, letters) && TokenOf(ch) != 0
    ensures FieldChar(q, TokenOf(ch)).Some?
    ensures var q' := FieldChar(q, TokenOf(ch)).value;
            q'.state.HeaderField? && NameOk(q', letters + [ch]) && Kept(q', q) && q'.nread == q.nread
  {
    hide TokenOf;
    if q.headerState.MatchingContentLength? {
      LengthGoesOn(q, letters, ch);
    } else {
      OtherGoesOn(q, letters, ch);
    }
  }

  lemma LengthGoesOn(q: Parser, letters: Bytes, ch: byte)
    requires q.headerState.MatchingContentLength? && NameOk(q, letters) && TokenOf(ch) != 0
    ensures FieldChar(q, TokenOf(ch)).Some?
    ensures var q' := FieldChar(q, TokenOf(ch)).value;
            q'.state == q.state && NameOk(q', letters + [ch]) && Kept(q', q) && q'.nread == q.nread
  {
    hide TokenOf;
    var c := TokenOf(ch);
    assert q.index + 1 < 14 && Inc(q.index) == q.index + 1;
    if c == NAME[q.index + 1] as int {
      Longer(letters, ch, q.index + 1);
    }
  }

  lemma Longer(letters: Bytes, ch: byte, k: nat)
    requires BeginsLength(letters, k) && k < |NAME| && TokenOf(ch) == NAME[k] as int
    ensures BeginsLength(letters + [ch], k + 1)
  {
    hide TokenOf;
  }

  lemma OtherGoesOn(q: Parser, letters: Bytes, ch: byte)
    requires !q.headerState.MatchingContentLength? && NameOk(q, letters) && TokenOf(ch) != 0
    ensures FieldChar(q, TokenOf(ch)).Some?
    ensures var q' := FieldChar(q, TokenOf(ch)).value;
            q'.state == q.state && NameOk(q', letters + [ch]) && Kept(q', q) && q'.nread == q.nread
  {
    var h := q.headerState;
    if h.C? || h.CO? || h.CON? {
      FirstGoOn(q, letters, ch);
    } else if Word(h) != "" {
      WordKeeps(q, Word(h), TokenOf(ch), General,
                if h.MatchingTransferEncoding? then TransferEncoding else if h.MatchingUpgrade? then Upgrade
                  else Connection);
      hide TokenOf, BeginsLength, MatchWord;
    } else {
      hide TokenOf, BeginsLength, MatchWord;
    }
  }

  lemma FirstGoOn(q: Parser, letters: Bytes, ch: byte)
    requires (q.headerState.C? || q.headerState.CO? || q.headerState.CON?) && NameOk(q, letters) && TokenOf(ch) != 0
    ensures FieldChar(q, TokenOf(ch)).Some?
    ensures var q' := FieldChar(q, TokenOf(ch)).value;
            q'.state == q.state && NameOk(q', letters + [ch]) && Kept(q', q) && q'.nread == q.nread
  {
    hide TokenOf;
    var c, k := TokenOf(ch), if q.headerState.C? then 1 else if q.headerState.CO? then 2 else 3;
    if c == NAME[k] as int { Longer(letters, ch, k); }
    hide BeginsLength, MatchWord;
  }

  lemma {:induction false} NamesRun(q: Parser, name: Bytes, k: nat, ev: seq<Event>, n: nat)
    requires BeforeField(q.state) && IsName(name) && 1 <= k <= |name| && q.nread + k <= MAX_HEADER_SIZE
    ensures var r := RunFrom(Running(q, None, ev, n), name[..k]);
            Ran(r, q, Some(Piece(HeaderFieldText, name[..k])), ev, n + k, q.nread + k) && r.p.state == HeaderField &&
            NameOk(r.p, name[..k])
    decreases k
  {
    hide TokenOf, NameOk, RunFrom, Next;
    var r0 := Running(q, None, ev, n);
    RunLast(r0, name[..k]);
    assert name[..k][..k - 1] == name[..k - 1];
    if k == 1 {
      assert name[..0] == [] && name[..1] == [name[0]];
      NothingRun(r0);
      NameStarts(q, name[0], ev, n);
    } else {
      NamesRun(q, name, k - 1, ev, n);
      NameStep(RunFrom(r0, name[..k - 1]), q, name[..k - 1], name[k - 1], ev, n + k - 1, q.nread + k - 1);
      assert name[..k - 1] + [name[k - 1]] == name[..k];
    }
  }

  lemma NameStarts(q: Parser, ch: byte, ev: seq<Event>, n: nat)
    requires BeforeField(q.state) && TokenOf(ch) != 0 && q.nread < MAX_HEADER_SIZE
    ensures var r := Next(Running(q, None, ev, n), ch);
            Ran(r, q, Some(Piece(HeaderFieldText, [ch])), ev, n + 1, q.nread + 1) && r.p.state == HeaderField &&
            NameOk(r.p, [ch])
  {
    NameBegins(q, ch);
    hide Byte, TokenOf, NameOk, Kept;
    OnePerformed(None, [Open(HeaderFieldText)], ch);
    assert ev + [] + [] == ev && [] + [ch] == [ch];
  }

  lemma NameStep(r: Run, q: Parser, letters: Bytes, ch: byte, ev: seq<Event>, n: nat, nread: nat)
    requires Ran(r, q, Some(Piece(HeaderFieldText, letters)), ev, n, nread) && r.p.state == HeaderField
    requires NameOk(r.p, letters) && TokenOf(ch) != 0 && nread < MAX_HEADER_SIZE
    ensures var r' := Next(r, ch);
            Ran(r', q, Some(Piece(HeaderFieldText, letters + [ch])), ev, n + 1, nread + 1) &&
              r'.p.state == HeaderField &&
            NameOk(r'.p, letters + [ch])
  {
    var q' := NameTurn(r.p, letters, ch);
    hide Byte, TokenOf, NameOk, Next;
    NextInside(r.p, Piece(HeaderFieldText, letters), ev, n, ch, q');
  }

  lemma NameTurn(p: Parser, letters: Bytes, ch: byte) returns (q: Parser)
    requires p.state == HeaderField && NameOk(p, letters) && TokenOf(ch) != 0 && p.nread < MAX_HEADER_SIZE
    ensures Byte(p, ch) == Go(q, [], []) && q.state == HeaderField && NameOk(q, letters + [ch]) && Kept(q, p)
    ensures q.nread == p.nread + 1
  {
    var counted := p.(nread := p.nread + 1);
    assert NameOk(counted, letters);
    hide Byte, TokenOf, NameOk, FieldChar;
    ByteInField(p, ch);
    NameGoesOn(counted, letters, ch);
    q := FieldChar(counted, TokenOf(ch)).value;
  }

  // ----- values

  /** The header states in which every byte of a value is taken. */
  predicate PlainValue(h: HState) {
    ValueState(h) && !h.ContentLengthNum? && !h.ContentLengthWs?
  }

  lemma ValueBegins(q: Parser, ch: byte)
    requires q.state == AroundValue(HeaderValueDiscardWs) && q.nread < MAX_HEADER_SIZE
    requires NameState(q.headerState) && !q.headerState.ContentLength?
    requires ch != CR && ch != LF && !IsBlank(ch)
    ensures var t := Byte(q, ch);
            t.Go? && t == Go(t.p, [Open(HeaderValueText)], []) && t.p.state == HeaderValue &&
              PlainValue(t.p.headerState) &&
            Kept(t.p, q) && t.p.nread == q.nread + 1
  {
  }

  lemma ValueGoesOn(q: Parser, ch: byte)
    requires q.state.HeaderValue? && PlainValue(q.headerState)
    ensures var t := ValueChar(q, ch);
            t.Go? && t == Go(t.p, [], []) && t.p.state == HeaderValue && PlainValue(t.p.headerState) &&
            Kept(t.p, q) && t.p.nread == q.nread
  {
    hide TokenOf;
    if Word(q.headerState) != "" {
      ValueWordGoesOn(q, ch);
    } else {
      hide MatchWord;
    }
  }

  lemma ValueWordGoesOn(q: Parser, ch: byte)
    requires q.state.HeaderValue? && PlainValue(q.headerState) && Word(q.headerState) != ""
    ensures var t := ValueChar(q, ch);
            t.Go? && t == Go(t.p, [], []) && t.p.state == HeaderValue && PlainValue(t.p.headerState) &&
            Kept(t.p, q) && t.p.nread == q.nread
  {
    hide TokenOf;
    var h := q.headerState;
    var missed := if h.MatchingTeChunked? then MatchingTeToken else MatchingConnToken;
    var done := if h.MatchingTeChunked? then TeChunked else if h.MatchingConnKeepAlive? then ConnKeepAlive
                else if h.MatchingConnClose? then ConnClose else ConnUpgrade;
    WordKeeps(q, Word(h), Lower(ch), missed, done);
    hide MatchWord;
  }

  lemma WordKeeps(q: Parser, word: string, c: byte, missed: HState, done: HState)
    ensures var q' := MatchWord(q, word, c, missed, done);
            q' == q.(index := q'.index, headerState := q'.headerState) &&
            (q'.headerState == missed || q'.headerState == done || q'.headerState == q.headerState)
  {
  }

  lemma {:induction false} ValuesRun(q: Parser, value: Bytes, k: nat, ev: seq<Event>, n: nat)
    requires q.state == AroundValue(HeaderValueDiscardWs) && NameState(q.headerState) && !q.headerState.ContentLength?
    requires IsValue(value, q.lenient) && 1 <= k <= |value| && q.nread + k <= MAX_HEADER_SIZE
    ensures var r := RunFrom(Running(q, None, ev, n), value[..k]);
            Ran(r, q, Some(Piece(HeaderValueText, value[..k])), ev, n + k, q.nread + k) && r.p.state == HeaderValue &&
            PlainValue(r.p.headerState)
    decreases k
  {
    hide RunFrom, Next, IsHeaderChar, PlainValue, NameState;
    var r0 := Running(q, None, ev, n);
    RunLast(r0, value[..k]);
    assert value[..k][..k - 1] == value[..k - 1];
    if k == 1 {
      assert value[..0] == [] && value[..1] == [value[0]];
      NothingRun(r0);
      ValueStarts(q, value[0], ev, n);
    } else {
      ValuesRun(q, value, k - 1, ev, n);
      ValueOn(RunFrom(r0, value[..k - 1]), q, value[..k - 1], value[k - 1], ev, n + k - 1, q.nread + k - 1);
      assert value[..k - 1] + [value[k - 1]] == value[..k];
    }
  }

  lemma ValueStarts(q: Parser, ch: byte, ev: seq<Event>, n: nat)
    requires q.state == AroundValue(HeaderValueDiscardWs) && q.nread < MAX_HEADER_SIZE
    requires NameState(q.headerState) && !q.headerState.ContentLength?
    requires ch != CR && ch != LF && !IsBlank(ch)
    ensures var r := Next(Running(q, None, ev, n), ch);
            Ran(r, q, Some(Piece(HeaderValueText, [ch])), ev, n + 1, q.nread + 1) && r.p.state == HeaderValue &&
            PlainValue(r.p.headerState)
  {
    ValueBegins(q, ch);
    hide Byte, PlainValue, Kept;
    OnePerformed(None, [Open(HeaderValueText)], ch);
    assert ev + [] + [] == ev && [] + [ch] == [ch];
  }

  lemma ValueOn(r: Run, q: Parser, text: Bytes, ch: byte, ev: seq<Event>, n: nat, nread: nat)
    requires Ran(r, q, Some(Piece(HeaderValueText, text)), ev, n, nread) && r.p.state == HeaderValue
    requires PlainValue(r.p.headerState) && nread < MAX_HEADER_SIZE
    requires ch != CR && ch != LF && (q.lenient || IsHeaderChar(ch))
    ensures var r' := Next(r, ch);
            Ran(r', q, Some(Piece(HeaderValueText, text + [ch])), ev, n + 1, nread + 1) && r'.p.state == HeaderValue &&
            PlainValue(r'.p.headerState)
  {
    var q' := ValueTurn(r.p, ch);
    hide Byte, IsHeaderChar, PlainValue, Next;
    NextInside(r.p, Piece(HeaderValueText, text), ev, n, ch, q');
  }

  lemma ValueTurn(p: Parser, ch: byte) returns (q: Parser)
    requires p.state == HeaderValue && PlainValue(p.headerState) && p.nread < MAX_HEADER_SIZE
    requires ch != CR && ch != LF && (p.lenient || IsHeaderChar(ch))
    ensures Byte(p, ch) == Go(q, [], []) && q.state == HeaderValue && PlainValue(q.headerState) && Kept(q, p)
    ensures q.nread == p.nread + 1
  {
    hide Byte, ValueChar, IsHeaderChar, PlainValue;
    ByteInValue(p, ch);
    ValueGoesOn(p.(nread := p.nread + 1), ch);
    q := ValueChar(p.(nread := p.nread + 1), ch).p;
  }

  // ----- fields

  /** The name and the colon. */
  lemma NameThenColon(q: Parser, f: Field, ev: seq<Event>, n: nat)
    requires BeforeField(q.state) && IsName(f.name) && !SaysLength(f.name) && q.nread + |f.name| + 1 <= MAX_HEADER_SIZE
    ensures var r, k := RunFrom(Running(q, None, ev, n), f.name + [COLON]), |f.name| + 1;
            Ran(r, q, None, ev + [Data(HeaderFieldText, f.name)], n + k, q.nread + k) &&
            r.p.state == AroundValue(HeaderValueDiscardWs) && NameState(r.p.headerState) &&
              !r.p.headerState.ContentLength?
  {
    hide RunFrom, Next, TokenOf;
    var r0 := Running(q, None, ev, n);
    RunSplit(r0, f.name, [COLON]);
    NamesRun(q, f.name, |f.name|, ev, n);
    assert f.name[..|f.name|] == f.name;
    var r := RunFrom(r0, f.name);
    OneByte(r, COLON);
    ColonTurn(r.p, f.name, ev, n + |f.name|);
  }

  lemma ValueThenEnd(q: Parser, f: Field, ev: seq<Event>, n: nat)
    requires q.state == AroundValue(HeaderValueDiscardWs) && NameState(q.headerState) && !q.headerState.ContentLength?
    requires IsValue(f.value, q.lenient) && LineEnd(f.end) && q.nread + |f.value| + |f.end| <= MAX_HEADER_SIZE
    ensures var r, k := RunFrom(Running(q, None, ev, n), f.value + f.end), |f.value| + |f.end|;
            Ran(r, q, None, ev + [Data(HeaderValueText, f.value)], n + k, q.nread + k) && BeforeField(r.p.state)
  {
    hide RunFrom, Next, IsHeaderChar, LineEnd, PlainValue, NameState;
    var r0 := Running(q, None, ev, n);
    RunSplit(r0, f.value, f.end);
    ValuesRun(q, f.value, |f.value|, ev, n);
    assert f.value[..|f.value|] == f.value;
    EndRun(RunFrom(r0, f.value).p, f.value, f.end, ev, n + |f.value|);
  }

  lemma FieldRun(q: Parser, f: Field, ev: seq<Event>, n: nat)
    requires BeforeField(q.state) && WellFormedField(f, q.lenient) && q.nread + |FieldText(f)| <= MAX_HEADER_SIZE
    ensures var r, k := RunFrom(Running(q, None, ev, n), FieldText(f)), |FieldText(f)|;
            Ran(r, q, None, ev + FieldEvents(f), n + k, q.nread + k) && BeforeField(r.p.state)
  {
    hide RunFrom, IsName, IsValue, SaysLength, Leading, LineEnd, NameState, BeforeField;
    var r0, head := Running(q, None, ev, n), f.name + [COLON];
    RunSplit(r0, head + f.lead, f.value + f.end);
    RunSplit(r0, head, f.lead);
    NameThenColon(q, f, ev, n);
    var r1, ev1 := RunFrom(r0, head), ev + [Data(HeaderFieldText, f.name)];
    LeadRun(r1.p, f.lead, ev1, n + |head|);
    ValueThenEnd(r1.p.(nread := r1.p.nread + |f.lead|), f, ev1, n + |head| + |f.lead|);
    assert ev1 + [Data(HeaderValueText, f.value)] == ev + FieldEvents(f);
  }

  lemma {:induction false} TrailerRun(r: Run, q: Parser, fs: seq<Field>, ev: seq<Event>, n: nat, nread: nat)
    requires Ran(r, q, None, ev, n, nread) && BeforeField(r.p.state) && AllWellFormed(fs, q.lenient)
    requires nread + |TrailerText(fs)| <= MAX_HEADER_SIZE
    ensures var r', k := RunFrom(r, TrailerText(fs)), |TrailerText(fs)|;
            Ran(r', q, None, ev + TrailerEvents(fs), n + k, nread + k) && BeforeField(r'.p.state)
    decreases |fs|
  {
    hide RunFrom, WellFormedField, FieldText, FieldEvents, BeforeField;
    if fs == [] {
      NothingRun(r);
      assert ev + [] == ev;
    } else {
      RunSplit(r, FieldText(fs[0]), TrailerText(fs[1..]));
      FieldRun(r.p, fs[0], ev, n);
      var k := |FieldText(fs[0])|;
      TrailerRun(RunFrom(r, FieldText(fs[0])), q, fs[1..], ev + FieldEvents(fs[0]), n + k, nread + k);
      assert ev + FieldEvents(fs[0]) + TrailerEvents(fs[1..]) == ev + (FieldEvents(fs[0]) + TrailerEvents(fs[1..]));
    }
  }

  // ----- the end of the body

  lemma ClosingTurns(q: Parser)
    requires BeforeField(q.state) && q.nread + 2 <= MAX_HEADER_SIZE && q.flags.trailing
    ensures var t := Byte(q, CR);
            t.Go? && t == Go(t.p, [], []) && Kept(t.p, q) && t.p.state == Ending(HeadersAlmostDone) &&
            t.p.nread == q.nread + 1
  {
  }

  lemma ClosingTurn(q: Parser)
    requires q.state == Ending(HeadersAlmostDone) && q.nread + 1 <= MAX_HEADER_SIZE && q.flags.trailing
    ensures Byte(q, LF) == Complete(q.(nread := q.nread + 1), [], [ChunkComplete])
  {
  }

  /** The empty line that ends a trailer ends the message. */
  lemma Closes(r: Run, q: Parser, ev: seq<Event>, n: nat, nread: nat) returns (last: Parser)
    requires Ran(r, q, None, ev, n, nread) && BeforeField(r.p.state) && nread + 2 <= MAX_HEADER_SIZE && q.flags.trailing
    ensures Kept(last, q) && RunFrom(r, CRLF) == Completed(last, ev + [ChunkComplete, MessageComplete], n + 2)
  {
    ClosingTurns(r.p);
    var p := Byte(r.p, CR).p;
    ClosingTurn(p);
    hide Byte, NewMessage;
    last := p.(nread := p.nread + 1);
    Quietly(r.p, ev, n, CR, p, []);
    assert ev + [] == ev;
    TwoBytes(r, CR, LF);
    assert ev + [] + ([ChunkComplete] + [MessageComplete]) == ev + [ChunkComplete, MessageComplete];
  }

  function TrailedBody(chunks: seq<ChunkText>, last: ChunkText, fs: seq<Field>): Bytes {
    if chunks == [] then Line(last) + (TrailerText(fs) + CRLF)
    else Encoded(chunks[0]) + TrailedBody(chunks[1..], last, fs)
  }

  function TrailedEvents(chunks: seq<ChunkText>, fs: seq<Field>): seq<Event> {
    if chunks == [] then [ChunkHeader(0)] + TrailerEvents(fs) + [ChunkComplete, MessageComplete]
    else ChunkEvents(chunks[0]) + TrailedEvents(chunks[1..], fs)
  }

  lemma LastAndTrailer(q: Parser, last: ChunkText, fs: seq<Field>, ev: seq<Event>, n: nat) returns (done: Parser)
    requires WellSized(last) && last.payload == [] && AllWellFormed(fs, q.lenient)
    requires |TrailerText(fs)| + 2 <= MAX_HEADER_SIZE
    requires q.state == InChunk(ChunkSizeStart) && q.flags.chunked && q.nread == 0
    ensures done.upgrade == q.upgrade && done.contentLength == 0
    ensures RunFrom(Running(q, None, ev, n), TrailedBody([], last, fs)) ==
            Completed(done, ev + TrailedEvents([], fs), n + |TrailedBody([], last, fs)|)
  {
    hide RunFrom, Line, WellSized, AllWellFormed, Completed, TrailerEvents, TrailerText;
    var r0, text := Running(q, None, ev, n), TrailerText(fs);
    RunSplit(r0, Line(last), text + CRLF);
    LineRun(q, last, ev, n);
    var q1, ev1, n1 := AfterLine(q, 0), ev + [ChunkHeader(0)], n + |Line(last)|;
    var r1 := Running(q1, None, ev1, n1);
    RunSplit(r1, text, CRLF);
    TrailerRun(r1, q1, fs, ev1, n1, 0);
    done := Closes(RunFrom(r1, text), q1, ev1 + TrailerEvents(fs), n1 + |text|, |text|);
    ToldInOrder(ev, TrailerEvents(fs));
  }

  lemma ToldInOrder(ev: seq<Event>, es: seq<Event>)
    ensures ev + [ChunkHeader(0)] + es + [ChunkComplete, MessageComplete] ==
            ev + ([ChunkHeader(0)] + es + [ChunkComplete, MessageComplete])
  {
  }

  lemma {:induction false} TrailedRun(q: Parser, chunks: seq<ChunkText>, last: ChunkText, fs: seq<Field>,
          ev: seq<Event>, n: nat)
    returns (done: Parser)
    requires (forall c <- chunks :: WellSized(c) && c.payload != []) && WellSized(last) && last.payload == []
    requires AllWellFormed(fs, q.lenient) && |TrailerText(fs)| + 2 <= MAX_HEADER_SIZE
    requires q.state == InChunk(ChunkSizeStart) && q.flags.chunked && q.nread == 0 && Bounded(q)
    ensures done.upgrade == q.upgrade && done.contentLength == 0
    ensures RunFrom(Running(q, None, ev, n), TrailedBody(chunks, last, fs)) ==
            Completed(done, ev + TrailedEvents(chunks, fs), n + |TrailedBody(chunks, last, fs)|)
    decreases |chunks|
  {
    hide Encoded, WellSized, RunFrom, Completed, ChunkEvents, AllWellFormed, TrailerText;
    if chunks == [] {
      done := LastAndTrailer(q, last, fs, ev, n);
    } else {
      var c, rest := chunks[0], TrailedBody(chunks[1..], last, fs);
      FirstChunk(q, c, rest, ev, n);
      done := TrailedRun(q.(contentLength := 0), chunks[1..], last, fs, ev + ChunkEvents(c), n + |Encoded(c)|);
      HttpExecute.Told(ev, ChunkEvents(c), TrailedEvents(chunks[1..], fs));
    }
  }

  // ----- what the callbacks add up to

  lemma {:induction false} TrailerAddsNothing(fs: seq<Field>)
    ensures BodyOf(TrailerEvents(fs)) == [] && Completions(TrailerEvents(fs)) == 0
    decreases |fs|
  {
    hide BodyOf, Completions;
    if fs == [] {
      NoEvents();
    } else {
      var a, b := Data(HeaderFieldText, fs[0].name), Data(HeaderValueText, fs[0].value);
      assert FieldEvents(fs[0]) == [a] + [b];
      BodySplit([a], [b]);
      BodyOfOne(a);
      BodyOfOne(b);
      BodySplit(FieldEvents(fs[0]), TrailerEvents(fs[1..]));
      TrailerAddsNothing(fs[1..]);
    }
  }

  lemma NoEvents()
    ensures BodyOf([]) == [] && Completions([]) == 0
  {
  }

  lemma {:induction false} TrailedAddUp(chunks: seq<ChunkText>, fs: seq<Field>)
    ensures BodyOf(TrailedEvents(chunks, fs)) == Payload(chunks) && Completions(TrailedEvents(chunks, fs)) == 1
    decreases |chunks|
  {
    hide BodyOf, Completions, ChunkEvents;
    if chunks == [] {
      TrailerAddsNothing(fs);
      BodySplit([ChunkHeader(0)] + TrailerEvents(fs), [ChunkComplete, MessageComplete]);
      BodySplit([ChunkHeader(0)], TrailerEvents(fs));
      assert [ChunkComplete, MessageComplete] == [ChunkComplete] + [MessageComplete];
      BodySplit([ChunkComplete], [MessageComplete]);
      BodyOfOne(ChunkHeader(0));
      BodyOfOne(ChunkComplete);
      BodyOfOne(MessageComplete);
    } else {
      ChunkAddsUp(chunks[0]);
      BodySplit(ChunkEvents(chunks[0]), TrailedEvents(chunks[1..], fs));
      TrailedAddUp(chunks[1..], fs);
    }
  }

  // ----- whole bodies

  /** A call on a whole chunked body, with trailer fields. */
  lemma TrailedCall(p: Parser, chunks: seq<ChunkText>, last: ChunkText, fs: seq<Field>)
    requires (forall c <- chunks :: WellSized(c) && c.payload != []) && WellSized(last) && last.payload == []
    requires AllWellFormed(fs, p.lenient) && |TrailerText(fs)| + 2 <= MAX_HEADER_SIZE
    requires p.state == InChunk(ChunkSizeStart) && p.flags.chunked && p.nread == 0 && Bounded(p)
    ensures var r, text := Call(p, TrailedBody(chunks, last, fs)), TrailedBody(chunks, last, fs);
            !r.Failed? && (r.Stopped? <==> p.upgrade) && r.read == |text| && r.events == TrailedEvents(chunks, fs) &&
            r.p.contentLength == 0
  {
    hide RunFrom, WellSized, TrailedEvents, TrailedBody, NewMessage, AllWellFormed, TrailerText;
    var done := TrailedRun(p, chunks, last, fs, [], 0);
    assert [] + TrailedEvents(chunks, fs) == TrailedEvents(chunks, fs);
    assert TrailedEvents(chunks, fs) + [] == TrailedEvents(chunks, fs);
    StartChunk(p);
  }

  /** Chunk decoding inverts chunk encoding, trailer fields included: whatever the chunks, the
      fields, and the pieces in which a session receives their text, no call fails, all of it
      is read, the body callbacks add up to the payloads, exactly one message ends, and the
      fields are told. */
  method ReceiveChunks(parser: HttpParser, pieces: seq<Bytes>, ghost chunks: seq<ChunkText>, ghost last: ChunkText,
          ghost fs: seq<Field>)
    returns (read: nat)
    requires (forall c <- chunks :: WellSized(c) && c.payload != []) && WellSized(last) && last.payload == []
    requires AllWellFormed(fs, parser.it.lenient) && |TrailerText(fs)| + 2 <= MAX_HEADER_SIZE
    requires parser.Valid() && parser.errno.None? && parser.it.state == InChunk(ChunkSizeStart)
    requires pieces != [] && AllHaveData(pieces) && Flatten(pieces) == TrailedBody(chunks, last, fs)
    requires forall k :: 0 <= k < |pieces| ==> |pieces[k]| <= MAX_DATA
    modifies parser
    ensures parser.Valid() && parser.errno.None? && read == |Flatten(pieces)| && parser.it.contentLength == 0
    ensures old(parser.told) <= parser.told
    ensures var events := parser.told[|old(parser.told)|..];
            Join(events) == Join(TrailedEvents(chunks, fs)) && BodyOf(events) == Payload(chunks) &&
              Completions(events) == 1
  {
    hide Call, Join, TrailedEvents, TrailedBody, Flatten, TrailerText, BodyOf, Completions, WellSized;
    TrailedCall(parser.it, chunks, last, fs);
    ghost var before := parser.told;
    read := parser.ExecuteAll(pieces);
    TrailedAddUp(chunks, fs);
    SameBody(parser.told[|before|..], TrailedEvents(chunks, fs));
  }

  lemma SameBody(a: seq<Event>, b: seq<Event>)
    requires Join(a) == Join(b)
    ensures BodyOf(a) == BodyOf(b) && Completions(a) == Completions(b)
  {
    hide Join, BodyOf, Completions;
    JoinedBody(a);
    JoinedBody(b);
  }

  /** The same for a body of known length. */
  method ReceiveFixed(parser: HttpParser, pieces: seq<Bytes>) returns (read: nat)
    requires parser.Valid() && parser.errno.None? && parser.it.state == BodyIdentity
    requires pieces != [] && AllHaveData(pieces) && |Flatten(pieces)| == parser.it.contentLength
    requires forall k :: 0 <= k < |pieces| ==> |pieces[k]| <= MAX_DATA
    modifies parser
    ensures parser.Valid() && parser.errno.None? && read == |Flatten(pieces)| && parser.it.contentLength == 0
    ensures old(parser.told) <= parser.told
    ensures var events := parser.told[|old(parser.told)|..];
            Join(events) == [Data(BodyText, Flatten(pieces)), MessageComplete] && BodyOf(events) == Flatten(pieces) &&
            Completions(events) == 1
  {
    hide Call, Join, Flatten, BodyOf, Completions, Completed, Framed;
    ghost var text, before := Flatten(pieces), parser.told;
    ghost var events := [Data(BodyText, text), MessageComplete];
    IdentityCall(parser.it, text);
    CompletedIs(parser.it.(contentLength := 0), events, |text|);
    HttpLengths.Told(text);
    read := parser.ExecuteAll(pieces);
    SameBody(parser.told[|before|..], events);
  }
}
