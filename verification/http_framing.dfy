/** What every byte keeps: the framing fields stay in bounds, so none of the code's
    assertions about them can fail, in any state a run can reach. */
module HttpFraming {
  import opened Bytes
  import opened HttpTypes
  import opened HttpTurn
  import opened HttpRun

  /** The word a header state is matching, if any. */
  function Word(h: HState): string {
    match h
    case MatchingConnection => "connection"
    case MatchingProxyConnection => "proxy-connection"
    case MatchingContentLength => "content-length"
    case MatchingTransferEncoding => "transfer-encoding"
    case MatchingUpgrade => "upgrade"
    case MatchingTeChunked => "chunked"
    case MatchingConnKeepAlive => "keep-alive"
    case MatchingConnClose => "close"
    case MatchingConnUpgrade => "upgrade"
    case _ => ""
  }

  /** The header states in which a name is read. */
  predicate NameState(h: HState) {
    h.General? || h.C? || h.CO? || h.CON? || h.MatchingConnection? || h.MatchingProxyConnection? ||
    h.MatchingContentLength? || h.MatchingTransferEncoding? || h.MatchingUpgrade? || h.Connection? ||
    h.ContentLength? || h.TransferEncoding? || h.Upgrade?
  }

  /** The index is inside the word being matched, and its five bits have not wrapped. */
  predicate Indexed(p: Parser) {
    match p.headerState
    case C => p.index == 0
    case CO => p.index == 1
    case CON => p.index == 2
    case MatchingTeTokenStart | MatchingConnTokenStart => p.index == 0
    case _ => Word(p.headerState) != "" ==> p.index + 1 < |Word(p.headerState)|
  }

  /** The header states in which a value is read. */
  predicate ValueState(h: HState) {
    h.General? || h.ContentLengthNum? || h.ContentLengthWs? || h.MatchingTeTokenStart? || h.MatchingTeChunked? ||
    h.MatchingTeToken? || h.MatchingConnTokenStart? || h.MatchingConnKeepAlive? || h.MatchingConnClose? ||
    h.MatchingConnUpgrade? || h.MatchingConnToken? || h.TeChunked? || h.ConnKeepAlive? || h.ConnClose? || h.ConnUpgrade?
  }

  predicate ValueFramed(p: Parser) {
    ValueState(p.headerState) && Indexed(p) && (p.headerState.ContentLengthNum? ==> p.flags.contentLength)
  }

  /** What a state says about the numbers, besides the bounds that always hold. */
  predicate StateFramed(p: Parser) {
    match p.state
    case InRequest(q) => q.ReqMethod? ==> p.index <= |MethodName(p.verb)|
    case HeaderField => NameState(p.headerState) && Indexed(p)
    case HeaderValue => ValueFramed(p)
    case InChunk(c) =>
      p.flags.chunked &&
      (match c
       case ChunkSizeStart => p.nread == 0
       case ChunkSize | ChunkParameters | ChunkSizeAlmostDone => p.contentLength < ABSENT
       case ChunkData => 0 < p.contentLength < ABSENT
       case ChunkDataAlmostDone | ChunkDataDone => p.contentLength == 0)
    case BodyIdentity => 0 < p.contentLength < ABSENT
    case _ => true
  }

  predicate Bounded(p: Parser) {
    p.nread <= MAX_HEADER_SIZE && p.contentLength <= ABSENT && (p.flags.contentLength ==> p.contentLength < ABSENT)
  }

  /** The framing invariant. A length under way is never the "absent" value; a chunk is only
      read after Transfer-Encoding said so; a chunk line starts with no bytes counted. */
  predicate Framed(p: Parser) {
    Bounded(p) && StateFramed(p)
  }

  predicate Unconstrained(s: State) {
    match s
    case InRequest(q) => !q.ReqMethod?
    case HeaderField | HeaderValue | InChunk(_) | BodyIdentity => false
    case _ => true
  }

  ghost predicate Keeps(t: Turn) {
    match t
    case Go(p, _, _) => Framed(p)
    case Quit(p, _, _) => Framed(p)
    case Failing(e, _, _) => e != AssertionFailure
  }

  /** Turns that end in a state without constraints, or in one of the code's errors. */
  lemma PlainTurns()
    ensures forall p: Parser, s: State {:trigger To(p, s)} :: Bounded(p) && Unconstrained(s) ==> Keeps(To(p, s))
    ensures forall e: Errno {:trigger Keeps(Fail(e))} :: e != AssertionFailure ==> Keeps(Fail(e))
  {
  }

  lemma InitiallyFramed(kind: Type, lenient: bool)
    ensures Framed(InitialParser(kind, lenient))
  {
  }

  lemma NewMessageFramed(p: Parser)
    requires Bounded(p)
    ensures Framed(p.(state := NewMessage(p)))
  {
    hide ShouldKeepAlive;
  }

  lemma StatusKeeps(p: Parser, ch: byte)
    requires Bounded(p)
    ensures Keeps(StatusStart(p, ch))
  {
  }

  lemma FreshKeeps(p: Parser, s: State, notes: seq<Event>)
    requires Bounded(p) && Unconstrained(s)
    ensures Keeps(Go(Fresh(p).(state := s), [], notes))
  {
  }

  lemma MarkKeeps(p: Parser, s: State, op: Op)
    requires Bounded(p) && Unconstrained(s)
    ensures Keeps(Mark(p, s, op))
  {
  }

  lemma ResponseKeeps(p: Parser, r: ResState, ch: byte)
    requires Bounded(p)
    ensures Keeps(ResponseLine(p, r, ch))
  {
    hide To, Keeps, StatusStart;
    PlainTurns();
    StatusKeeps(p, ch);
    if r.StartRes? && ch == 72 { FreshKeeps(p, InResponse(ResH), [MessageBegin]); }
    if r.ResStatus? && (ch == CR || ch == LF) {
      MarkKeeps(p, if ch == CR then InResponse(ResLineAlmostDone) else Ending(HeaderFieldStart), Close(StatusText));
    }
  }

  /** A method that replaces another is long enough for the index already reached. */
  lemma SwitchedFits(m: Method, index: nat, ch: byte)
    ensures var s := Switched(m, index, ch); s.Some? ==> index + 1 <= |MethodName(s.value)|
  {
  }

  lemma MethodKeeps(p: Parser, ch: byte)
    requires Bounded(p) && p.index <= |MethodName(p.verb)|
    ensures Keeps(MethodChar(p, ch))
  {
    hide MethodName, Switched;
    SwitchedFits(p.verb, p.index, ch);
  }

  lemma StartKeeps(p: Parser, ch: byte)
    requires Bounded(p)
    ensures Keeps(StartEither(p, ch)) && Keeps(HeadOrHttp(p, ch)) && Keeps(StartRequest(p, ch))
  {
    hide FirstMethod;
  }

  lemma UrlCharKeeps(p: Parser, from: UrlState, ch: byte, ops: seq<Op>)
    requires Bounded(p)
    ensures Keeps(UrlChar(p, from, ch, ops))
  {
    hide ParseUrlChar;
  }

  lemma RequestKeeps(p: Parser, q: ReqState, ch: byte)
    requires Bounded(p) && (q.ReqMethod? ==> p.index <= |MethodName(p.verb)|)
    ensures Keeps(RequestLine(p, q, ch))
  {
    hide StartRequest, MethodChar, UrlChar, MethodName, To, Keeps;
    PlainTurns();
    UrlCharKeeps(p, if p.verb == CONNECT then ReqServerStart else UrlSpaces, ch, [Open(UrlText)]);
    if q.ReqMethod? { MethodKeeps(p, ch); }
    StartKeeps(p, ch);
  }

  lemma UrlKeeps(p: Parser, u: UrlState, ch: byte)
    requires Bounded(p)
    ensures Keeps(Url(p, u, ch))
  {
    hide UrlChar;
    UrlCharKeeps(p, u, ch, []);
  }

  lemma MatchKeeps(p: Parser, c: byte, missed: HState, done: HState)
    requires Word(p.headerState) != "" && p.index + 1 < |Word(p.headerState)|
    ensures var q := MatchWord(p, Word(p.headerState), c, missed, done);
            q == p.(index := p.index + 1, headerState := q.headerState) &&
            (q.headerState == missed || q.headerState == done ||
             (q.headerState == p.headerState && q.index + 1 < |Word(p.headerState)|))
  {
  }

  lemma FieldCharKeeps(p: Parser, c: byte)
    requires NameState(p.headerState) && Indexed(p)
    ensures var q := FieldChar(p, c);
            q.Some? && NameState(q.value.headerState) && Indexed(q.value) &&
            q.value == p.(index := q.value.index, headerState := q.value.headerState,
                          transferEncoding := q.value.transferEncoding)
  {
    hide FieldChar, NameState, Indexed;
    if Word(p.headerState) != "" {
      NameWordKeeps(p, c);
    } else {
      NameOtherKeeps(p, c);
    }
  }

  ghost predicate NameCharKept(p: Parser, q: Option<Parser>) {
    q.Some? && NameState(q.value.headerState) && Indexed(q.value) &&
    q.value == p.(index := q.value.index, headerState := q.value.headerState,
                  transferEncoding := q.value.transferEncoding)
  }

  lemma NameWordKeeps(p: Parser, c: byte)
    requires NameState(p.headerState) && Indexed(p) && Word(p.headerState) != ""
    ensures NameCharKept(p, FieldChar(p, c))
  {
    hide MatchWord;
    var h := p.headerState;
    MatchKeeps(p, c, General,
               if h.MatchingContentLength? then ContentLength
               else if h.MatchingTransferEncoding? then TransferEncoding
               else if h.MatchingUpgrade? then Upgrade else Connection);
  }

  lemma NameOtherKeeps(p: Parser, c: byte)
    requires NameState(p.headerState) && Indexed(p) && Word(p.headerState) == ""
    ensures NameCharKept(p, FieldChar(p, c))
  {
    hide MatchWord;
  }

  lemma FieldKeeps(p: Parser, ch: byte)
    requires Framed(p) && p.state.HeaderField?
    ensures Keeps(Field(p, ch))
  {
    hide FieldChar, TokenOf, NameState, Indexed;
    FieldCharKeeps(p, TokenOf(ch));
  }

  lemma LengthKeeps(p: Parser, ch: byte)
    requires Bounded(p) && p.flags.contentLength
    ensures Keeps(LengthDigit(p, ch))
  {
  }

  lemma ToValueKeeps()
    ensures forall p: Parser {:trigger To(p, HeaderValue)} :: Bounded(p) && ValueFramed(p) ==> Keeps(To(p, HeaderValue))
  {
  }

  lemma ValueCharKeeps(p: Parser, ch: byte)
    requires Framed(p) && p.state.HeaderValue?
    ensures Keeps(ValueChar(p, ch))
  {
    ValueIsFramed(p);
    var h := p.headerState;
    if Word(h) != "" {
      WordCharKeeps(p, ch);
    } else if h.ConnKeepAlive? || h.ConnClose? || h.ConnUpgrade? {
      ConnectionEndKeeps(p, ch);
    } else if h.ContentLengthNum? {
      LengthKeeps(p, ch);
      WsKeeps(p);
    } else {
      OtherCharKeeps(p, ch);
    }
  }

  lemma WsKeeps(p: Parser)
    requires Bounded(p)
    ensures Keeps(To(p.(headerState := ContentLengthWs), HeaderValue))
  {
  }

  lemma WordCharKeeps(p: Parser, ch: byte)
    requires Bounded(p) && ValueFramed(p) && Word(p.headerState) != ""
    ensures Keeps(ValueChar(p, ch))
  {
    hide MatchWord, To, Keeps;
    ToValueKeeps();
    var h := p.headerState;
    MatchKeeps(p, Lower(ch), if h.MatchingTeChunked? then MatchingTeToken else MatchingConnToken,
               if h.MatchingTeChunked? then TeChunked else if h.MatchingConnKeepAlive? then ConnKeepAlive
               else if h.MatchingConnClose? then ConnClose else ConnUpgrade);
  }

  lemma OtherCharKeeps(p: Parser, ch: byte)
    requires Bounded(p) && ValueFramed(p) && Word(p.headerState) == "" && !p.headerState.ContentLengthNum?
    requires !p.headerState.ConnKeepAlive? && !p.headerState.ConnClose? && !p.headerState.ConnUpgrade?
    ensures Keeps(ValueChar(p, ch))
  {
    hide TokenOf, To, Keeps;
    ToValueKeeps();
    PlainTurns();
  }

  lemma ValueIsFramed(p: Parser)
    requires Framed(p) && p.state.HeaderValue?
    ensures ValueFramed(p)
  {
  }

  lemma ConnectionEndKeeps(p: Parser, ch: byte)
    requires Bounded(p) && ValueFramed(p) &&
             (p.headerState.ConnKeepAlive? || p.headerState.ConnClose? || p.headerState.ConnUpgrade?)
    ensures Keeps(ConnectionEnd(p, ch))
  {
    hide To;
    ToValueKeeps();
  }

  lemma ValueKeeps(p: Parser, ch: byte)
    requires Framed(p) && p.state.HeaderValue?
    ensures Keeps(Value(p, ch))
  {
    hide ValueChar;
    ValueCharKeeps(p, ch);
  }

  lemma StartedKeeps(p: Parser, h: HState)
    requires Bounded(p) && p.index == 0 && ValueState(h) && (h.ContentLengthNum? ==> p.flags.contentLength)
    ensures Keeps(Started(p, h))
  {
  }

  lemma ValueStartKeeps(p: Parser, ch: byte)
    requires Bounded(p)
    ensures Keeps(ValueStart(p, ch))
  {
    hide Started, StateFramed;
    var q := p.(index := 0);
    forall h | ValueState(h) && !h.ContentLengthNum? ensures Keeps(Started(q, h)) { StartedKeeps(q, h); }
    StartedKeeps(q.(flags := q.flags.(upgrade := true)), General);
    if IsDigit(ch) {
      StartedKeeps(q.(flags := q.flags.(contentLength := true), contentLength := ch - 48), ContentLengthNum);
    }
  }

  lemma AllDoneKeeps(p: Parser, ch: byte, notes: seq<Event>)
    requires Bounded(p)
    ensures Keeps(AllDone(p, ch, notes))
  {
    hide NewMessage, NeedsEof;
    NewMessageFramed(p.(nread := 0));
  }

  lemma AlmostDoneKeeps(p: Parser, ch: byte)
    requires Bounded(p)
    ensures Keeps(AlmostDone(p, ch))
  {
    hide NewMessage, AllDone;
    NewMessageFramed(p);
    AllDoneKeeps(Upgrading(p), ch, [HeadersComplete]);
  }

  lemma FieldStartKeeps(p: Parser, ch: byte)
    requires Bounded(p)
    ensures Keeps(FieldStart(p, ch))
  {
    hide AlmostDone, TokenOf;
    AlmostDoneKeeps(p, ch);
  }

  lemma BeforeKeeps(t: Turn)
    requires Keeps(t)
    ensures Keeps(Before([Empty(HeaderValueText)], t))
  {
  }

  lemma SetFlagsBounded(p: Parser)
    requires Bounded(p)
    ensures Bounded(SetFlags(p))
  {
  }

  lemma BetweenKeeps(p: Parser, a: AroundState, ch: byte)
    requires Bounded(p)
    ensures Keeps(BetweenValues(p, a, ch))
  {
    hide FieldStart, ValueStart, To, Keeps, Before, SetFlags;
    PlainTurns();
    SetFlagsBounded(p);
    ValueStartKeeps(p, ch);
    ValueStartKeeps(p.(headerState := ContentLengthWs), ch);
    FieldStartKeeps(SetFlags(p), ch);
    BeforeKeeps(FieldStart(SetFlags(p), ch));
  }

  lemma FinalKeeps(p: Parser, e: EndState, ch: byte)
    requires Bounded(p)
    ensures Keeps(Final(p, e, ch))
  {
    hide FieldStart, AlmostDone, AllDone, NewMessage;
    FieldStartKeeps(p, ch);
    AlmostDoneKeeps(p, ch);
    AllDoneKeeps(p, ch, []);
    NewMessageFramed(p);
  }

  /** The conservative limit: one more hexadecimal digit neither wraps 64 bits nor reaches
      the "absent" value. */
  lemma HexDigitFits(n: nat, d: nat)
    requires n <= HEX_LIMIT && d < 16
    ensures n * 16 + d < ABSENT
  {
  }

  lemma ChunkKeeps(p: Parser, c: ChunkState, ch: byte)
    requires Bounded(p) && p.state == InChunk(c)
    requires if c.ChunkSizeStart? then p.flags.chunked && p.nread == 1 else StateFramed(p)
    ensures Keeps(Chunk(p, c, ch))
  {
    hide HEX_LIMIT;
    if c.ChunkSizeStart? || c.ChunkSize? || c.ChunkParameters? {
      ChunkLineKeeps(p, c, ch);
    }
  }

  lemma ChunkLineKeeps(p: Parser, c: ChunkState, ch: byte)
    requires Bounded(p) && p.flags.chunked
    requires if c.ChunkSizeStart? then p.nread == 1 else c.ChunkSize? || c.ChunkParameters?
    requires !c.ChunkSizeStart? ==> p.contentLength < ABSENT
    ensures Keeps(Chunk(p, c, ch))
  {
    hide ToChunk, HEX_LIMIT, Keeps;
    PlainTurns();
    LineTurns();
    if c.ChunkSize? && Unhex(ch) >= 0 && p.contentLength <= HEX_LIMIT {
      HexDigitFits(p.contentLength, Unhex(ch));
    }
  }

  /** The states between a chunk line's first byte and its line feed. */
  predicate InLine(c: ChunkState) {
    c.ChunkSize? || c.ChunkParameters? || c.ChunkSizeAlmostDone?
  }

  lemma LineTurns()
    ensures forall p: Parser, c: ChunkState {:trigger ToChunk(p, c)} ::
              Bounded(p) && p.flags.chunked && p.contentLength < ABSENT && InLine(c) ==> Keeps(ToChunk(p, c))
  {
  }

  lemma BodyKeeps(p: Parser, ch: byte)
    requires Framed(p) && (p.state.BodyIdentity? || p.state.BodyIdentityEof?)
    ensures Keeps(Body(p, ch))
  {
    hide NewMessage;
    NewMessageFramed(p.(contentLength := 0));
  }

  /** Every byte keeps the framing invariant, and none makes an assertion of the code fail. */
  lemma ByteKeeps(p: Parser, ch: byte)
    requires Framed(p)
    ensures Keeps(Byte(p, ch))
  {
    hide ResponseLine, RequestLine, Url, Field, Value, BetweenValues, Final, Chunk, Body, StartEither, HeadOrHttp;
    if !ParsingHeader(p.state) || p.nread + 1 <= MAX_HEADER_SIZE {
      var q := if ParsingHeader(p.state) then p.(nread := p.nread + 1) else p;
      match p.state {
        case InResponse(r) => ResponseKeeps(q, r, ch);
        case InRequest(r) => RequestKeeps(q, r, ch);
        case InUrl(u) => UrlKeeps(q, u, ch);
        case HeaderField => FieldKeeps(q, ch);
        case HeaderValue => ValueKeeps(q, ch);
        case AroundValue(a) => BetweenKeeps(q, a, ch);
        case Ending(e) => FinalKeeps(q, e, ch);
        case InChunk(c) => ChunkKeeps(q, c, ch);
        case BodyIdentity | BodyIdentityEof => BodyKeeps(q, ch);
        case _ => StartKeeps(q, ch);
      }
    }
  }

  ghost predicate RunKeeps(r: Run) {
    match r
    case Running(p, _, _, _) => Framed(p)
    case Stopped(p, _, _) => Framed(p)
    case Failed(e, _, _, _) => e != AssertionFailure
  }

  /** Along every run that starts framed the invariant holds, and no assertion fails. */
  lemma {:induction false} RunFramed(r: Run, data: Bytes)
    requires RunKeeps(r)
    ensures RunKeeps(RunFrom(r, data))
    decreases |data|
  {
    hide Framed, Byte, PerformAll;
    if data != [] {
      RunFramed(r, data[..|data| - 1]);
      var before := RunFrom(r, data[..|data| - 1]);
      if before.Running? { ByteKeeps(before.p, data[|data| - 1]); }
    }
  }
}
