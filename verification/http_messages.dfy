/** Whole messages as a sender writes them, and what a parser that starts afresh tells of them:
    the first line, the fields, how the fields frame the body, the body, and what comes next. */
module HttpMessages {
  import opened Bytes
  import opened Decimals
  import opened HttpTypes
  import opened HttpTurn
  import opened HttpRun
  import opened HttpCut
  import opened HttpFraming
  import opened HttpExecute
  import opened HttpChunks
  import opened HttpLengths
  import opened HttpTrailers
  import opened HttpNames
  import opened HttpValues
  import opened HttpOptions
  import opened HttpHeads
  import opened HttpStarts
  import C = HttpCompose

  // ----- what the fields of a message say together

  /** A field has a name that notes a transfer coding. */
  ghost predicate SomeCoding(fs: seq<Field>) {
    exists k :: 0 <= k < |fs| && NamesCoding(fs[k].name)
  }

  ghost predicate SomeChunked(fs: seq<Field>) {
    exists k :: 0 <= k < |fs| && SaysChunked(fs[k])
  }

  ghost predicate SomeOption(fs: seq<Field>, word: string) {
    exists k :: 0 <= k < |fs| && SaysOption(fs[k], word)
  }

  ghost predicate SomeUpgrade(fs: seq<Field>) {
    exists k :: 0 <= k < |fs| && SaysUpgrade(fs[k])
  }

  /** The number of the one Content-Length field. */
  ghost function TheLength(fs: seq<Field>): nat
    requires Lengths(fs) == 1
  {
    if IsLength(fs[0]) then LengthOf(fs[0]) else TheLength(fs[1..])
  }

  lemma Cons(fs: seq<Field>, word: string)
    requires fs != []
    ensures SomeCoding(fs) <==> NamesCoding(fs[0].name) || SomeCoding(fs[1..])
    ensures SomeChunked(fs) <==> SaysChunked(fs[0]) || SomeChunked(fs[1..])
    ensures SomeOption(fs, word) <==> SaysOption(fs[0], word) || SomeOption(fs[1..], word)
    ensures SomeUpgrade(fs) <==> SaysUpgrade(fs[0]) || SomeUpgrade(fs[1..])
  {
    hide SaysChunked, SaysOption, SaysUpgrade, NamesCoding;
    assert fs == [fs[0]] + fs[1..];
    assert forall k :: 0 <= k < |fs| - 1 ==> fs[1..][k] == fs[k + 1];
    assert forall k :: 1 <= k < |fs| ==> fs[k] == fs[1..][k - 1];
  }

  /** The parser's framing facts after the fields are what these say. */
  ghost predicate Said(c: Parser, d: Parser, fs: seq<Field>) {
    && SameStart(c, d)
    && d.transferEncoding == (c.transferEncoding || SomeCoding(fs))
    && FlagsSaid(c.flags, d.flags, fs)
    && d.flags.contentLength == (c.flags.contentLength || Lengths(fs) > 0)
    && (Lengths(fs) == 0 ==> d.contentLength == c.contentLength)
    && (Lengths(fs) == 1 ==> d.contentLength == TheLength(fs))
  }

  ghost predicate FlagsSaid(c: Flags, d: Flags, fs: seq<Field>) {
    && d.chunked == (c.chunked || SomeChunked(fs))
    && d.keepAlive == (c.keepAlive || SomeOption(fs, KEEP_ALIVE))
    && d.close == (c.close || SomeOption(fs, CLOSE))
    && d.connUpgrade == (c.connUpgrade || SomeOption(fs, UPGRADE))
    && d.upgrade == (c.upgrade || SomeUpgrade(fs))
  }

  lemma {:induction false} EffectsAre(c: Parser, fs: seq<Field>)
    ensures Said(c, EffectAll(c, fs), fs)
    decreases |fs|
  {
    hide Effect, SaysChunked, SaysOption, SaysUpgrade, NamesCoding, IsLength, LengthOf;
    if fs != [] {
      EffectsAre(Effect(c, fs[0]), fs[1..]);
      EffectSays(c, fs[0]);
      Cons(fs, KEEP_ALIVE);
      Cons(fs, CLOSE);
      Cons(fs, UPGRADE);
      hide SomeCoding, SomeChunked, SomeOption, SomeUpgrade;
    }
  }

  lemma EffectSays(c: Parser, f: Field)
    ensures var d := Effect(c, f);
      SameStart(c, d) && d.transferEncoding == (c.transferEncoding || NamesCoding(f.name)) &&
      d.flags.chunked == (c.flags.chunked || SaysChunked(f)) &&
      d.flags.keepAlive == (c.flags.keepAlive || SaysOption(f, KEEP_ALIVE)) &&
      d.flags.close == (c.flags.close || SaysOption(f, CLOSE)) &&
      d.flags.connUpgrade == (c.flags.connUpgrade || SaysOption(f, UPGRADE)) &&
      d.flags.upgrade == (c.flags.upgrade || SaysUpgrade(f)) &&
      d.flags.contentLength == (c.flags.contentLength || IsLength(f)) &&
      d.contentLength == if IsLength(f) then LengthOf(f) else c.contentLength
  {
    hide SaysChunked, SaysOption, SaysUpgrade, NamesCoding, IsLength, LengthOf;
  }

  /** A message that is chunked has a coding. */
  lemma ChunkedIsCoding(fs: seq<Field>)
    ensures SomeChunked(fs) ==> SomeCoding(fs)
  {
    forall k | 0 <= k < |fs| && SaysChunked(fs[k]) ensures NamesCoding(fs[k].name) {
      var name := fs[k].name;
      WordsArePlain();
      assert name[..17] == name;
    }
    hide SaysChunked, NamesCoding;
  }

  // ----- the end of the fields

  /** What a turn without data makes of a run. */
  function Ended(t: Turn, ev: seq<Event>, n: nat): Run {
    match t
    case Go(q, _, notes) => Running(q, None, ev + notes, n + 1)
    case Quit(q, _, notes) => Stopped(q, ev + notes, n + 1)
    case Failing(e, _, notes) => Failed(e, None, ev + notes, n)
  }

  lemma LastLf(q: Parser)
    requires Ready(q) && q.nread < MAX_HEADER_SIZE
    ensures Byte(q, LF) == Before(DueOps(q), AlmostDone(Settle(q).(nread := q.nread + 1), LF))
  {
    hide AlmostDone, SetFlags;
    CountKept(q);
    assert Byte(q, LF) == if DueOps(q) == [] then AlmostDone(Settle(q).(nread := q.nread + 1), LF)
                          else Before(DueOps(q), AlmostDone(Settle(q).(nread := q.nread + 1), LF));
    NothingBefore(AlmostDone(Settle(q).(nread := q.nread + 1), LF));
  }

  lemma NothingBefore(t: Turn)
    ensures Before([], t) == t
  {
    assert [] + t.ops == t.ops;
  }

  lemma LastCr(q: Parser)
    requires Ready(q) && q.nread < MAX_HEADER_SIZE
    ensures Byte(q, CR) ==
            Go(Settle(q).(state := Ending(HeadersAlmostDone), nread := q.nread + 1), DueOps(q), [])
  {
    hide AlmostDone, SetFlags;
    CountKept(q);
  }

  lemma AlmostByte(q: Parser)
    requires q.state == Ending(HeadersAlmostDone) && q.nread < MAX_HEADER_SIZE
    ensures Byte(q, LF) == AlmostDone(q.(nread := q.nread + 1), LF)
  {
    hide AlmostDone;
  }

  /** A turn that does nothing with the marks but tell an empty value that is due. */
  lemma SilentStep(q: Parser, t: Turn, due: seq<Op>, told: seq<Event>, ev: seq<Event>, n: nat, ch: byte)
    requires Byte(q, ch) == Before(due, t) && t.ops == [] && PerformAll(None, due, ch) == (None, told)
    ensures Next(Running(q, None, ev, n), ch) == Ended(t, ev + told, n)
  {
    hide Byte;
    assert due + [] == due;
  }

  lemma EndsWithLf(q: Parser, ev: seq<Event>, n: nat)
    requires Ready(q) && q.nread < MAX_HEADER_SIZE
    ensures Next(Running(q, None, ev, n), LF) ==
            Ended(AlmostDone(Settle(q).(nread := q.nread + 1), LF), ev + Due(q), n)
  {
    hide AlmostDone, Settle, Next, Byte;
    LastLf(q);
    DuePerformed(q, LF);
    AlmostDoneSilent(Settle(q).(nread := q.nread + 1), LF);
    SilentStep(q, AlmostDone(Settle(q).(nread := q.nread + 1), LF), DueOps(q), Due(q), ev, n, LF);
  }

  lemma EndsWithCr(q: Parser, ev: seq<Event>, n: nat)
    requires Ready(q) && q.nread < MAX_HEADER_SIZE
    ensures Next(Running(q, None, ev, n), CR) ==
            Running(Settle(q).(state := Ending(HeadersAlmostDone), nread := q.nread + 1), None, ev + Due(q), n + 1)
  {
    LastCr(q);
    hide Byte, Settle, Due, DueOps;
    DuePerformed(q, CR);
    assert ev + Due(q) + [] == ev + Due(q);
  }

  lemma AlmostStep(q: Parser, ev: seq<Event>, n: nat)
    requires q.state == Ending(HeadersAlmostDone) && q.nread < MAX_HEADER_SIZE
    ensures Next(Running(q, None, ev, n), LF) == Ended(AlmostDone(q.(nread := q.nread + 1), LF), ev, n)
  {
    hide AlmostDone, Next, Byte;
    var t := AlmostDone(q.(nread := q.nread + 1), LF);
    AlmostByte(q);
    AlmostDoneSilent(q.(nread := q.nread + 1), LF);
    NothingBefore(t);
    SilentStep(q, t, [], [], ev, n, LF);
    assert ev + [] == ev;
  }

  /** The empty line after the fields. */
  lemma EmptyLine(r: Run, c: Parser, end: Bytes, ev: seq<Event>, n: nat, nread: nat) returns (d: Parser)
    requires Fielded(r, c, ev, n, nread) && LineEnd(end) && nread + |end| <= MAX_HEADER_SIZE
    ensures Core(d) == c && d.nread == nread + |end|
    ensures RunFrom(r, end) == Ended(AlmostDone(d, LF), ev, n + |end| - 1)
  {
    hide AlmostDone, Settle, Next, RunFrom, Ready;
    var q := r.p;
    if end == [LF] {
      d := Settle(q).(nread := q.nread + 1);
      OneByte(r, LF);
      EndsWithLf(q, r.events, n);
    } else {
      var q1 := Settle(q).(state := Ending(HeadersAlmostDone), nread := q.nread + 1);
      d := q1.(nread := q.nread + 2);
      TwoBytes(r, CR, LF);
      EndsWithCr(q, r.events, n);
      AlmostStep(q1, ev, n + 1);
    }
  }

  /** The fields and the empty line after them. */
  lemma FieldsThenEnd(q: Parser, fs: seq<Field>, end: Bytes, ev: seq<Event>, n: nat) returns (d: Parser)
    requires q.state == Ending(HeaderFieldStart) && AllAllowed(fs, q.lenient) && LineEnd(end)
    requires Lengths(fs) + (if q.flags.contentLength then 1 else 0) <= 1
    requires q.nread + |TrailerText(fs)| + |end| <= MAX_HEADER_SIZE
    ensures Said(q, d, fs) && d.nread == q.nread + |TrailerText(fs)| + |end|
    ensures var k := |TrailerText(fs)| + |end|;
      RunFrom(Running(q, None, ev, n), TrailerText(fs) + end) ==
      Ended(AlmostDone(d, LF), ev + TrailerEvents(fs), n + k - 1)
  {
    hide AlmostDone, RunFrom, AllAllowed, LineEnd, Lengths, TrailerText, TrailerEvents, EffectAll;
    var r := Running(q, None, ev, n);
    assert Fielded(r, Core(q), ev, n, q.nread) by { assert ev + [] == ev; }
    RunSplit(r, TrailerText(fs), end);
    FieldsRun(r, Core(q), fs, ev, n, q.nread);
    var k := |TrailerText(fs)|;
    d := EmptyLine(RunFrom(r, TrailerText(fs)), EffectAll(Core(q), fs), end, ev + TrailerEvents(fs), n + k,
                   q.nread + k);
    EffectsAre(Core(q), fs);
    SaidOfCores(q, d, fs);
  }

  lemma SaidOfCores(q: Parser, d: Parser, fs: seq<Field>)
    requires Said(Core(q), Core(d), fs)
    ensures Said(q, d, fs)
  {
    hide SomeCoding, SomeChunked, SomeOption, SomeUpgrade;
  }

  // ----- how the body is framed

  /** Whether a message lets the connection go on: from version 1.1 unless a field says close,
      before it only if a field says keep-alive. */
  ghost predicate Alive(major: nat, minor: nat, fs: seq<Field>) {
    if major > 0 && minor > 0 then !SomeOption(fs, CLOSE) else SomeOption(fs, KEEP_ALIVE)
  }

  /** Responses that have no body where no field says otherwise: 1xx, 204 and 304. */
  predicate NoBody(code: nat) {
    100 <= code < 200 || code == 204 || code == 304
  }

  /** The state after a message. */
  function After(kind: Type, alive: bool): State {
    if !alive then Dead else if kind == HttpRequest then InRequest(StartReq) else InResponse(StartRes)
  }

  /** The parser where the fields have ended, and do not frame the body twice. */
  ghost predicate AtHeadEnd(d: Parser) {
    && (d.kind == HttpRequest || d.kind == HttpResponse) && !d.flags.trailing && !d.flags.skipBody
    && (d.flags.chunked ==> d.transferEncoding)
    && (d.flags.contentLength && d.transferEncoding ==> d.lenient && !d.flags.chunked)
    && (if d.flags.contentLength then d.contentLength < ABSENT else d.contentLength == ABSENT)
  }

  /** Another protocol follows. */
  predicate Switching(d: Parser) {
    if d.flags.upgrade && d.flags.connUpgrade then d.kind == HttpRequest || d.statusCode == 101 else d.verb == CONNECT
  }

  /** There is no body before it. */
  predicate AtOnce(d: Parser) {
    d.verb == CONNECT || !(d.flags.chunked || (d.flags.contentLength && d.contentLength > 0))
  }

  /** The parser once it has told the end of the fields. */
  function Headed(d: Parser): Parser {
    d.(nread := 0, upgrade := Switching(d))
  }

  lemma HeadedIs(d: Parser)
    requires AtHeadEnd(d)
    ensures AlmostDone(d, LF) == AllDone(Upgrading(d), LF, [HeadersComplete])
    ensures Upgrading(d).(nread := 0) == Headed(d)
  {
    hide AllDone;
  }

  /** A connection that goes over to another protocol. */
  lemma SwitchOutcome(d: Parser)
    requires AtHeadEnd(d) && Switching(d) && AtOnce(d)
    ensures AlmostDone(d, LF) ==
            Quit(Headed(d).(state := NewMessage(Headed(d))), [], [HeadersComplete, MessageComplete])
  {
    HeadedIs(d);
    hide AlmostDone, NewMessage, Upgrading;
  }

  /** The message goes on. */
  predicate GoesOn(d: Parser) {
    !(Switching(d) && AtOnce(d))
  }

  lemma CodedOutcome(d: Parser)
    requires AtHeadEnd(d) && GoesOn(d) && d.transferEncoding
    ensures AlmostDone(d, LF) ==
            if d.flags.chunked then Go(Headed(d).(state := InChunk(ChunkSizeStart)), [], [HeadersComplete])
            else if d.kind == HttpRequest && !d.lenient then Failing(InvalidTransferEncoding, [], [HeadersComplete])
            else Go(Headed(d).(state := BodyIdentityEof), [], [HeadersComplete])
  {
    HeadedIs(d);
    hide AlmostDone, NewMessage, Upgrading;
  }

  lemma LengthOutcome(d: Parser)
    requires AtHeadEnd(d) && GoesOn(d) && d.flags.contentLength && !d.transferEncoding
    ensures AlmostDone(d, LF) ==
            if d.contentLength == 0 then
              Go(Headed(d).(state := NewMessage(Headed(d))), [], [HeadersComplete, MessageComplete])
            else Go(Headed(d).(state := BodyIdentity), [], [HeadersComplete])
  {
    HeadedIs(d);
    hide AlmostDone, NewMessage, Upgrading;
  }

  lemma UnframedOutcome(d: Parser)
    requires AtHeadEnd(d) && GoesOn(d) && !d.transferEncoding && !d.flags.contentLength
    ensures AlmostDone(d, LF) ==
            if d.kind == HttpRequest || NoBody(d.statusCode) then
              Go(Headed(d).(state := NewMessage(Headed(d))), [], [HeadersComplete, MessageComplete])
            else Go(Headed(d).(state := BodyIdentityEof), [], [HeadersComplete])
  {
    HeadedIs(d);
    Hundreds(d.statusCode);
    hide AlmostDone, NewMessage, Upgrading;
  }

  lemma Hundreds(code: nat)
    ensures code / 100 == 1 <==> 100 <= code < 200
  {
  }

  /** The state after a message that does not end with the connection. */
  lemma NextState(q: Parser)
    requires (q.kind == HttpRequest || q.kind == HttpResponse)
    requires q.kind == HttpResponse ==>
      NoBody(q.statusCode) || q.flags.chunked || (!q.transferEncoding && q.contentLength != ABSENT)
    ensures NewMessage(q) ==
            After(q.kind, if q.httpMajor > 0 && q.httpMinor > 0 then !q.flags.close else q.flags.keepAlive)
  {
    Hundreds(q.statusCode);
  }

  // ----- bodies

  /** No body; one of known length; a chunked one, with its trailer; one that ends with the
      connection. */
  datatype Body =
    | Nothing
    | Fixed(content: Bytes)
    | Chunks(chunks: seq<ChunkText>, last: ChunkText, trailer: seq<Field>)
    | UntilEnd(content: Bytes)

  function BodyWritten(b: Body): Bytes {
    match b
    case Nothing => []
    case Fixed(content) => content
    case Chunks(chunks, last, trailer) => TrailedBody(chunks, last, trailer)
    case UntilEnd(content) => content
  }

  /** What the body carries. */
  function Content(b: Body): Bytes {
    match b
    case Nothing => []
    case Fixed(content) => content
    case Chunks(chunks, _, _) => Payload(chunks)
    case UntilEnd(content) => content
  }

  function TrailerOf(b: Body): seq<Field> {
    if b.Chunks? then b.trailer else []
  }

  function ContentEvents(content: Bytes): seq<Event> {
    if content == [] then [] else [Data(BodyText, content)]
  }

  /** What is told of the body; the end of the connection tells the end of the message. */
  function BodyEvents(b: Body): seq<Event> {
    match b
    case Nothing => [MessageComplete]
    case Fixed(content) => ContentEvents(content) + [MessageComplete]
    case Chunks(chunks, _, trailer) => TrailedEvents(chunks, trailer)
    case UntilEnd(content) => ContentEvents(content)
  }

  ghost predicate ProperBody(b: Body, lenient: bool) {
    b.Chunks? ==>
      && (forall c <- b.chunks :: WellSized(c) && c.payload != []) && WellSized(b.last) && b.last.payload == []
      && AllAllowed(b.trailer, lenient) && Lengths(b.trailer) <= 1 && |TrailerText(b.trailer)| + 2 <= MAX_HEADER_SIZE
  }

  lemma TrailerEndTurns(q: Parser)
    requires q.flags.trailing
    ensures AlmostDone(q, LF) == Complete(q, [], [ChunkComplete])
  {
    hide Complete;
  }

  /** The last chunk and the trailer. */
  lemma LastThenTrailer(q: Parser, last: ChunkText, fs: seq<Field>, ev: seq<Event>, n: nat) returns (done: Parser)
    requires WellSized(last) && last.payload == [] && AllAllowed(fs, q.lenient) && Lengths(fs) <= 1
    requires |TrailerText(fs)| + 2 <= MAX_HEADER_SIZE && !q.flags.contentLength
    requires q.state == InChunk(ChunkSizeStart) && q.flags.chunked && q.nread == 0
    ensures Said(q.(contentLength := 0, flags := q.flags.(trailing := true)), done, fs)
    ensures done.nread == |TrailerText(fs)| + 2
    ensures RunFrom(Running(q, None, ev, n), TrailedBody([], last, fs)) ==
            Completed(done, ev + TrailedEvents([], fs), n + |TrailedBody([], last, fs)|)
  {
    hide RunFrom, Line, WellSized, AllAllowed, Completed, TrailerEvents, TrailerText, Said, Lengths, AlmostDone,
      Complete;
    var r0, text := Running(q, None, ev, n), TrailerText(fs);
    RunSplit(r0, Line(last), text + CRLF);
    LineRun(q, last, ev, n);
    var q1, ev1, n1 := AfterLine(q, 0), ev + [ChunkHeader(0)], n + |Line(last)|;
    done := FieldsThenEnd(q1, fs, CRLF, ev1, n1);
    SaidAfterLine(q, done, fs);
    TrailerEndTurns(done);
    CompleteEnds(done, ev1 + TrailerEvents(fs), n1 + |text| + 1);
    HttpTrailers.ToldInOrder(ev, TrailerEvents(fs));
  }

  lemma SaidAfterLine(q: Parser, done: Parser, fs: seq<Field>)
    requires Said(AfterLine(q, 0), done, fs)
    ensures done.flags.trailing
    ensures Said(q.(contentLength := 0, flags := q.flags.(trailing := true)), done, fs)
  {
    hide SomeCoding, SomeChunked, SomeOption, SomeUpgrade;
  }

  lemma CompleteEnds(done: Parser, ev: seq<Event>, n: nat)
    ensures Ended(Complete(done, [], [ChunkComplete]), ev, n) ==
            Completed(done, ev + [ChunkComplete, MessageComplete], n + 1)
  {
    hide NewMessage;
    assert [ChunkComplete] + [MessageComplete] == [ChunkComplete, MessageComplete];
  }

  lemma {:induction false} ChunksRun(q: Parser, chunks: seq<ChunkText>, last: ChunkText, fs: seq<Field>, ev: seq<Event>,
          n: nat) returns (done: Parser)
    requires (forall c <- chunks :: WellSized(c) && c.payload != []) && WellSized(last) && last.payload == []
    requires AllAllowed(fs, q.lenient) && Lengths(fs) <= 1 && |TrailerText(fs)| + 2 <= MAX_HEADER_SIZE
    requires q.state == InChunk(ChunkSizeStart) && q.flags.chunked && q.nread == 0 && Bounded(q)
    requires !q.flags.contentLength
    ensures Said(q.(contentLength := 0, flags := q.flags.(trailing := true)), done, fs)
    ensures done.nread == |TrailerText(fs)| + 2
    ensures RunFrom(Running(q, None, ev, n), TrailedBody(chunks, last, fs)) ==
            Completed(done, ev + TrailedEvents(chunks, fs), n + |TrailedBody(chunks, last, fs)|)
    decreases |chunks|
  {
    hide Encoded, WellSized, RunFrom, Completed, ChunkEvents, AllAllowed, TrailerText, Said, Lengths;
    if chunks == [] {
      done := LastThenTrailer(q, last, fs, ev, n);
    } else {
      var c, rest := chunks[0], TrailedBody(chunks[1..], last, fs);
      FirstChunk(q, c, rest, ev, n);
      done := ChunksRun(q.(contentLength := 0), chunks[1..], last, fs, ev + ChunkEvents(c), n + |Encoded(c)|);
      HttpExecute.Told(ev, ChunkEvents(c), TrailedEvents(chunks[1..], fs));
    }
  }

  /** A body of known length, from its first byte to its last. */
  lemma FixedRuns(q: Parser, text: Bytes, ev: seq<Event>, n: nat)
    requires q.state == BodyIdentity && Framed(q) && |text| == q.contentLength
    ensures RunFrom(Running(q, None, ev, n), text) ==
            Completed(q.(contentLength := 0), ev + [Data(BodyText, text), MessageComplete], n + |text|)
  {
    hide RunFrom, NewMessage, Framed;
    IdentityWhole(q, text);
    RunPrepend(ev, n, Running(q, None, [], 0), text);
    assert Prepend(ev, n, Running(q, None, [], 0)) == Running(q, None, ev, n) by { assert ev + [] == ev; }
  }

  lemma EofStep(q: Parser, d: Option<Piece>, ev: seq<Event>, n: nat, ch: byte)
    requires q.state == BodyIdentityEof && Of(d, BodyText)
    ensures Next(Running(q, d, ev, n), ch) ==
            Running(q, Some(Piece(BodyText, (if d.Some? then d.value.bytes else []) + [ch])), ev, n + 1)
  {
    EofTurn(q, ch);
    hide Byte;
    OnePerformed(d, [Open(BodyText)], ch);
    assert ev + [] + [] == ev;
  }

  lemma EofTurn(q: Parser, ch: byte)
    requires q.state == BodyIdentityEof
    ensures Byte(q, ch) == Go(q, [Open(BodyText)], [])
  {
  }

  /** A body that ends with the connection. */
  lemma {:induction false} EofRuns(q: Parser, text: Bytes, ev: seq<Event>, n: nat)
    requires q.state == BodyIdentityEof
    ensures RunFrom(Running(q, None, ev, n), text) ==
            Running(q, if text == [] then None else Some(Piece(BodyText, text)), ev, n + |text|)
    decreases |text|
  {
    hide RunFrom, Next;
    var r0 := Running(q, None, ev, n);
    if text == [] {
      NothingRun(r0);
    } else {
      var k := |text| - 1;
      RunLast(r0, text);
      EofRuns(q, text[..k], ev, n);
      EofStep(q, if k == 0 then None else Some(Piece(BodyText, text[..k])), ev, n + k, text[k]);
      assert text[..k] + [text[k]] == text && (k == 0 ==> [] + [text[0]] == text);
    }
  }

  // ----- the fields and the body together

  /** The connection goes over to another protocol after the message: with an Upgrade field and
      the option upgrade, of a request or of a response with status 101; and else by CONNECT. */
  ghost predicate Switches(kind: Type, verb: Method, code: nat, fs: seq<Field>) {
    if SomeUpgrade(fs) && SomeOption(fs, UPGRADE) then kind == HttpRequest || code == 101 else verb == CONNECT
  }

  /** The fields promise a body. */
  ghost predicate Promise(fs: seq<Field>) {
    SomeChunked(fs) || (Lengths(fs) == 1 && TheLength(fs) > 0)
  }

  /** A coding and a length exclude each other, but for a lenient parser without chunks. */
  ghost predicate FramedTwice(lenient: bool, fs: seq<Field>) {
    SomeCoding(fs) && Lengths(fs) > 0 && (!lenient || SomeChunked(fs))
  }

  /** What the fields say of the body is what the body is. */
  ghost predicate Frames(kind: Type, verb: Method, code: nat, lenient: bool, fs: seq<Field>, b: Body) {
    && !FramedTwice(lenient, fs)
    && if Switches(kind, verb, code, fs) && (verb == CONNECT || !Promise(fs)) then b.Nothing?
       else
         match b
         case Chunks(_, _, _) => SomeChunked(fs)
         case Fixed(content) => !SomeCoding(fs) && Lengths(fs) == 1 && TheLength(fs) == |content|
         case Nothing => !SomeCoding(fs) && Lengths(fs) == 0 && (kind == HttpRequest || NoBody(code))
         case UntilEnd(_) =>
           if SomeCoding(fs) then !SomeChunked(fs) && (kind == HttpResponse || lenient)
           else Lengths(fs) == 0 && kind == HttpResponse && !NoBody(code)
  }

  /** A parser that has read a first line, and nothing more of its message. */
  ghost predicate AfterFirstLine(q: Parser) {
    && q.state == Ending(HeaderFieldStart) && (q.kind == HttpRequest || q.kind == HttpResponse)
    && q.flags == NO_FLAGS && !q.transferEncoding && q.contentLength == ABSENT
  }

  ghost predicate SameLine(d: Parser, q: Parser) {
    && q.kind == d.kind && q.lenient == d.lenient && q.httpMajor == d.httpMajor && q.httpMinor == d.httpMinor
    && q.statusCode == d.statusCode && q.verb == d.verb
  }

  /** What is left on the count of header bytes: the trailer, which counts with the next header. */
  function StillCounted(b: Body): nat {
    if b.Chunks? then |TrailerText(b.trailer)| + 2 else 0
  }

  /** The message has been read: this was told, and the parser is ready for what comes next, if it
      does not stop for another protocol. */
  ghost predicate Finished(r: Run, d: Parser, alive: bool, stops: bool, b: Body, ev: seq<Event>, n: nat) {
    !r.Failed? && SameLine(d, r.p) && r.p.nread == StillCounted(b) &&
    if b.UntilEnd? then
      r.p.state == BodyIdentityEof &&
      r == Running(r.p, if b.content == [] then None else Some(Piece(BodyText, b.content)), ev + [HeadersComplete], n)
    else
      var told := ev + [HeadersComplete] + BodyEvents(b);
      r.p.state == After(d.kind, alive) && r == if stops then Stopped(r.p, told, n) else Running(r.p, None, told, n)
  }

  lemma HeadEnds(q: Parser, d: Parser, fs: seq<Field>)
    requires AfterFirstLine(q) && Said(q, d, fs) && Lengths(fs) <= 1 && !FramedTwice(q.lenient, fs)
    requires AllAllowed(fs, q.lenient)
    ensures AtHeadEnd(d)
  {
    ChunkedIsCoding(fs);
    hide SomeCoding, SomeChunked, SomeOption, SomeUpgrade, AllAllowed;
    if Lengths(fs) == 1 { LengthFits(fs, q.lenient); }
  }

  /** What the fields say of another protocol is what the parser notes. */
  lemma SwitchingIs(q: Parser, d: Parser, fs: seq<Field>)
    requires AfterFirstLine(q) && Said(q, d, fs) && Lengths(fs) <= 1
    ensures Switching(d) <==> Switches(d.kind, d.verb, d.statusCode, fs)
    ensures AtOnce(d) <==> d.verb == CONNECT || !Promise(fs)
    ensures d.transferEncoding == SomeCoding(fs) && d.flags.chunked == SomeChunked(fs)
    ensures d.flags.contentLength == (Lengths(fs) > 0)
    ensures Lengths(fs) == 1 ==> d.contentLength == TheLength(fs)
  {
    hide SomeCoding, SomeChunked, SomeOption, SomeUpgrade;
  }

  lemma {:induction false} LengthFits(fs: seq<Field>, lenient: bool)
    requires Lengths(fs) == 1 && AllAllowed(fs, lenient)
    ensures TheLength(fs) <= MAX_LENGTH < ABSENT
  {
    hide IsLength, LengthOf;
    assert Allowed(fs[0], lenient);
    if IsLength(fs[0]) {
      AllowedParts(fs[0], lenient);
    } else {
      assert forall k :: 0 <= k < |fs| - 1 ==> fs[1..][k] == fs[k + 1];
      LengthFits(fs[1..], lenient);
    }
  }

  /** The state after a message, from what its fields said. */
  lemma AfterFields(q: Parser, d: Parser, fs: seq<Field>)
    requires AfterFirstLine(q) && Said(q, d, fs) && AtHeadEnd(d)
    requires d.kind == HttpResponse ==>
      NoBody(d.statusCode) || d.flags.chunked || (!d.transferEncoding && d.flags.contentLength)
    ensures NewMessage(Headed(d)) == After(d.kind, Alive(d.httpMajor, d.httpMinor, fs))
  {
    NextState(Headed(d));
    hide NewMessage, SomeCoding, SomeChunked, SomeOption, SomeUpgrade;
  }

  /** What holds where the fields of a message end. */
  ghost predicate Heads(q: Parser, d: Parser, fs: seq<Field>, b: Body) {
    && AfterFirstLine(q) && Said(q, d, fs) && AtHeadEnd(d) && Lengths(fs) <= 1
    && Frames(d.kind, d.verb, d.statusCode, d.lenient, fs, b) && (d.kind == HttpResponse ==> d.verb != CONNECT)
  }

  ghost predicate Stops(d: Parser, fs: seq<Field>) {
    Switches(d.kind, d.verb, d.statusCode, fs)
  }

  lemma NothingFinishes(q: Parser, d: Parser, fs: seq<Field>, ev: seq<Event>, n: nat)
    requires Heads(q, d, fs, Nothing)
    ensures Finished(Ended(AlmostDone(d, LF), ev, n), d, Alive(d.httpMajor, d.httpMinor, fs), Stops(d, fs), Nothing,
                     ev, n + 1)
  {
    SwitchingIs(q, d, fs);
    hide SomeCoding, SomeChunked, SomeOption, SomeUpgrade, Alive, NewMessage, AlmostDone, Switches, Promise, Said,
         Switching, AtOnce;
    NothingState(q, d, fs);
    if Switching(d) && AtOnce(d) {
      SwitchOutcome(d);
    } else {
      UnframedOutcome(d);
    }
    assert ev + [HeadersComplete, MessageComplete] == ev + [HeadersComplete] + [MessageComplete];
  }

  lemma NothingState(q: Parser, d: Parser, fs: seq<Field>)
    requires Heads(q, d, fs, Nothing)
    ensures NewMessage(Headed(d)) == After(d.kind, Alive(d.httpMajor, d.httpMinor, fs))
    ensures GoesOn(d) ==> !Switching(d)
  {
    SwitchingIs(q, d, fs);
    hide SomeCoding, SomeChunked, SomeOption, SomeUpgrade, Alive, NewMessage, AlmostDone;
    AfterFields(q, d, fs);
  }

  lemma FixedFinishes(q: Parser, d: Parser, fs: seq<Field>, text: Bytes, ev: seq<Event>, n: nat)
    requires Heads(q, d, fs, Fixed(text))
    ensures Finished(RunFrom(Ended(AlmostDone(d, LF), ev, n), text), d, Alive(d.httpMajor, d.httpMinor, fs),
                     Stops(d, fs), Fixed(text), ev, n + 1 + |text|)
  {
    hide *;
    FixedFacts(q, d, fs, text);
    if text == [] {
      EmptyFinishes(d, Alive(d.httpMajor, d.httpMinor, fs), ev, n);
      NothingRun(Ended(AlmostDone(d, LF), ev, n));
    } else {
      LengthFinishes(d, Alive(d.httpMajor, d.httpMinor, fs), text, ev, n);
    }
  }

  lemma FixedFacts(q: Parser, d: Parser, fs: seq<Field>, text: Bytes)
    requires Heads(q, d, fs, Fixed(text))
    ensures AtHeadEnd(d) && GoesOn(d) && Switching(d) == Stops(d, fs) && (text == [] ==> !Switching(d))
    ensures d.contentLength == |text| && d.flags.contentLength && !d.transferEncoding && Bounded(d.(nread := 0))
    ensures NewMessage(Headed(d)) == After(d.kind, Alive(d.httpMajor, d.httpMinor, fs))
  {
    SwitchingIs(q, d, fs);
    hide SomeCoding, SomeChunked, SomeOption, SomeUpgrade, NewMessage, Alive;
    AfterFields(q, d, fs);
  }

  lemma EmptyFinishes(d: Parser, alive: bool, ev: seq<Event>, n: nat)
    requires AtHeadEnd(d) && GoesOn(d) && d.flags.contentLength && d.contentLength == 0 && !d.transferEncoding
    requires NewMessage(Headed(d)) == After(d.kind, alive)
    ensures Finished(Ended(AlmostDone(d, LF), ev, n), d, alive, false, Fixed([]), ev, n + 1)
  {
    LengthOutcome(d);
    hide NewMessage, AlmostDone;
    assert ev + [HeadersComplete, MessageComplete] == ev + [HeadersComplete] + ([] + [MessageComplete]);
  }

  lemma LengthFinishes(d: Parser, alive: bool, text: Bytes, ev: seq<Event>, n: nat)
    requires AtHeadEnd(d) && GoesOn(d) && d.flags.contentLength && d.contentLength == |text| > 0 && !d.transferEncoding
    requires NewMessage(Headed(d)) == After(d.kind, alive) && Bounded(d.(nread := 0))
    ensures Finished(RunFrom(Ended(AlmostDone(d, LF), ev, n), text), d, alive, Switching(d), Fixed(text), ev,
                     n + 1 + |text|)
  {
    hide NewMessage, AlmostDone, RunFrom;
    LengthOutcome(d);
    var b := Headed(d).(state := BodyIdentity);
    FixedRuns(b, text, ev + [HeadersComplete], n + 1);
    SameNext(b.(contentLength := 0), Headed(d));
    assert [Data(BodyText, text), MessageComplete] == [Data(BodyText, text)] + [MessageComplete];
    assert ev + [HeadersComplete] + [Data(BodyText, text), MessageComplete] ==
           ev + [HeadersComplete] + BodyEvents(Fixed(text));
  }

  /** A length that has been used up makes no difference to what comes next. */
  lemma SameNext(a: Parser, b: Parser)
    requires a == b.(contentLength := 0, state := a.state) && b.contentLength != ABSENT && !b.transferEncoding
    ensures NewMessage(a) == NewMessage(b)
  {
  }

  lemma SomeBoth(a: seq<Field>, b: seq<Field>, word: string)
    ensures SomeOption(a + b, word) <==> SomeOption(a, word) || SomeOption(b, word)
  {
    hide SaysOption;
    assert forall k :: 0 <= k < |a| ==> (a + b)[k] == a[k];
    assert forall k :: 0 <= k < |b| ==> (a + b)[|a| + k] == b[k];
  }

  /** The state after a chunked body, from the fields and the trailer. */
  lemma AfterChunks(q: Parser, d: Parser, done: Parser, fs: seq<Field>, trailer: seq<Field>)
    requires AfterFirstLine(q) && Said(q, d, fs) && AtHeadEnd(d) && d.flags.chunked
    requires Said(Headed(d).(state := InChunk(ChunkSizeStart), contentLength := 0,
                             flags := d.flags.(trailing := true)), done, trailer)
    ensures NewMessage(done) == After(d.kind, Alive(d.httpMajor, d.httpMinor, fs + trailer))
    ensures SameLine(d, done) && done.upgrade == Switching(d)
  {
    SomeBoth(fs, trailer, CLOSE);
    SomeBoth(fs, trailer, KEEP_ALIVE);
    NextState(done);
    hide NewMessage, SomeCoding, SomeChunked, SomeOption, SomeUpgrade;
  }

  lemma ChunksFacts(q: Parser, d: Parser, fs: seq<Field>, b: Body)
    requires Heads(q, d, fs, b) && b.Chunks?
    ensures AtHeadEnd(d) && GoesOn(d) && Switching(d) == Stops(d, fs) && d.flags.chunked && d.transferEncoding
    ensures AfterFirstLine(q) && Said(q, d, fs) && !d.flags.contentLength
  {
    SwitchingIs(q, d, fs);
    ChunkedIsCoding(fs);
    hide SomeCoding, SomeChunked, SomeOption, SomeUpgrade;
  }

  lemma ChunksFinish(q: Parser, d: Parser, fs: seq<Field>, b: Body, ev: seq<Event>, n: nat)
    requires Heads(q, d, fs, b) && b.Chunks? && Bounded(d) && ProperBody(b, d.lenient)
    ensures Finished(RunFrom(Ended(AlmostDone(d, LF), ev, n), BodyWritten(b)), d,
                     Alive(d.httpMajor, d.httpMinor, fs + b.trailer), Stops(d, fs), b, ev, n + 1 + |BodyWritten(b)|)
  {
    hide *;
    ChunksFacts(q, d, fs, b);
    CodedOutcome(d);
    ChunkStart(d);
    ChunkedParts(b, d.lenient);
    var c := Headed(d).(state := InChunk(ChunkSizeStart));
    EndedGo(c, ev, n);
    var done := ChunksRun(c, b.chunks, b.last, b.trailer, ev + [HeadersComplete], n + 1);
    AfterChunks(q, d, done, fs, b.trailer);
    ChunksCompleted(d, done, Alive(d.httpMajor, d.httpMinor, fs + b.trailer), b, ev, n + 1 + |BodyWritten(b)|);
  }

  lemma EndedGo(c: Parser, ev: seq<Event>, n: nat)
    ensures Ended(Go(c, [], [HeadersComplete]), ev, n) == Running(c, None, ev + [HeadersComplete], n + 1)
  {
  }

  lemma ChunkStart(d: Parser)
    requires Bounded(d)
    ensures var c := Headed(d).(state := InChunk(ChunkSizeStart));
      c.state == InChunk(ChunkSizeStart) && c.flags == d.flags && c.nread == 0 && Bounded(c) && c.lenient == d.lenient
    ensures Headed(d).flags == d.flags
  {
  }

  lemma ChunkedParts(b: Body, lenient: bool)
    requires b.Chunks? && ProperBody(b, lenient)
    ensures (forall c <- b.chunks :: WellSized(c) && c.payload != []) && WellSized(b.last) && b.last.payload == []
    ensures AllAllowed(b.trailer, lenient) && Lengths(b.trailer) <= 1 && |TrailerText(b.trailer)| + 2 <= MAX_HEADER_SIZE
    ensures BodyWritten(b) == TrailedBody(b.chunks, b.last, b.trailer)
    ensures BodyEvents(b) == TrailedEvents(b.chunks, b.trailer) && StillCounted(b) == |TrailerText(b.trailer)| + 2
  {
    hide WellSized, AllAllowed, Lengths, TrailerText;
  }

  lemma ChunksCompleted(d: Parser, done: Parser, alive: bool, b: Body, ev: seq<Event>, n: nat)
    requires b.Chunks? && SameLine(d, done) && NewMessage(done) == After(d.kind, alive)
    requires done.nread == StillCounted(b)
    ensures Finished(Completed(done, ev + [HeadersComplete] + BodyEvents(b), n), d, alive, done.upgrade, b, ev, n)
  {
    hide NewMessage, After, TrailedEvents;
  }

  lemma UntilEndFacts(q: Parser, d: Parser, fs: seq<Field>, text: Bytes)
    requires Heads(q, d, fs, UntilEnd(text))
    ensures AtHeadEnd(d) && AlmostDone(d, LF) == Go(Headed(d).(state := BodyIdentityEof), [], [HeadersComplete])
  {
    SwitchingIs(q, d, fs);
    ChunkedIsCoding(fs);
    hide SomeCoding, SomeChunked, SomeOption, SomeUpgrade, AlmostDone;
    if d.transferEncoding { CodedOutcome(d); } else { UnframedOutcome(d); }
  }

  lemma UntilEndFinishes(q: Parser, d: Parser, fs: seq<Field>, text: Bytes, ev: seq<Event>, n: nat, alive: bool,
                         stops: bool)
    requires Heads(q, d, fs, UntilEnd(text))
    ensures Finished(RunFrom(Ended(AlmostDone(d, LF), ev, n), text), d, alive, stops, UntilEnd(text), ev,
                     n + 1 + |text|)
  {
    hide AlmostDone, RunFrom, Heads, AtHeadEnd;
    UntilEndFacts(q, d, fs, text);
    EofRuns(Headed(d).(state := BodyIdentityEof), text, ev + [HeadersComplete], n + 1);
  }

  /** From the end of the first line to the end of the message. */
  lemma MessageRuns(q: Parser, fs: seq<Field>, end: Bytes, b: Body, ev: seq<Event>, n: nat)
    requires AfterFirstLine(q) && AllAllowed(fs, q.lenient) && Lengths(fs) <= 1 && LineEnd(end)
    requires Frames(q.kind, q.verb, q.statusCode, q.lenient, fs, b) && ProperBody(b, q.lenient)
    requires (q.kind == HttpResponse ==> q.verb != CONNECT) && q.nread + |TrailerText(fs)| + |end| <= MAX_HEADER_SIZE
    ensures var k := |TrailerText(fs)| + |end| + |BodyWritten(b)|;
      Finished(RunFrom(Running(q, None, ev, n), TrailerText(fs) + end + BodyWritten(b)), q,
               Alive(q.httpMajor, q.httpMinor, fs + TrailerOf(b)), Stops(q, fs), b, ev + TrailerEvents(fs), n + k)
  {
    hide *;
    var k := |TrailerText(fs) + end|;
    var d := HeadThenBody(q, fs, end, b, ev, n);
    SaidLine(q, d, fs);
    HeadsBoth(q, d, fs, b);
    BodyFinishes(q, d, fs, b, ev + TrailerEvents(fs), n + k - 1);
    FinishedAgain(RunFrom(Ended(AlmostDone(d, LF), ev + TrailerEvents(fs), n + k - 1), BodyWritten(b)), d, q,
                  Alive(q.httpMajor, q.httpMinor, fs + TrailerOf(b)), Stops(q, fs), b, ev + TrailerEvents(fs),
                  n + k + |BodyWritten(b)|);
  }

  lemma HeadsBoth(q: Parser, d: Parser, fs: seq<Field>, b: Body)
    requires AfterFirstLine(q) && Said(q, d, fs) && AtHeadEnd(d) && Lengths(fs) <= 1 && SameLine(d, q)
    requires Frames(q.kind, q.verb, q.statusCode, q.lenient, fs, b) && (q.kind == HttpResponse ==> q.verb != CONNECT)
    ensures Heads(q, d, fs, b) && Stops(d, fs) == Stops(q, fs)
  {
    hide Frames, Said, AfterFirstLine, AtHeadEnd, Lengths;
  }

  lemma HeadThenBody(q: Parser, fs: seq<Field>, end: Bytes, b: Body, ev: seq<Event>, n: nat) returns (d: Parser)
    requires AfterFirstLine(q) && AllAllowed(fs, q.lenient) && Lengths(fs) <= 1 && LineEnd(end)
    requires Frames(q.kind, q.verb, q.statusCode, q.lenient, fs, b)
    requires q.nread + |TrailerText(fs)| + |end| <= MAX_HEADER_SIZE
    ensures Said(q, d, fs) && AtHeadEnd(d) && d.nread <= MAX_HEADER_SIZE
    ensures var k := |TrailerText(fs) + end|;
      k >= 1 &&
      RunFrom(Running(q, None, ev, n), TrailerText(fs) + end + BodyWritten(b)) ==
      RunFrom(Ended(AlmostDone(d, LF), ev + TrailerEvents(fs), n + k - 1), BodyWritten(b))
  {
    hide *;
    FramesOnce(q, fs, b);
    FirstFacts(q, end);
    RunSplit(Running(q, None, ev, n), TrailerText(fs) + end, BodyWritten(b));
    d := FieldsThenEnd(q, fs, end, ev, n);
    HeadEnds(q, d, fs);
  }

  lemma FirstFacts(q: Parser, end: Bytes)
    requires AfterFirstLine(q) && LineEnd(end)
    ensures |end| >= 1 && !q.flags.contentLength && q.state == Ending(HeaderFieldStart)
  {
  }

  lemma SaidLine(q: Parser, d: Parser, fs: seq<Field>)
    requires Said(q, d, fs)
    ensures SameLine(d, q) && d.kind == q.kind && d.lenient == q.lenient
    ensures d.httpMajor == q.httpMajor && d.httpMinor == q.httpMinor
  {
    hide SomeCoding, SomeChunked, SomeOption, SomeUpgrade;
  }

  lemma FramesOnce(q: Parser, fs: seq<Field>, b: Body)
    requires Frames(q.kind, q.verb, q.statusCode, q.lenient, fs, b)
    ensures !FramedTwice(q.lenient, fs)
  {
    hide FramedTwice, Lengths;
  }

  lemma FinishedAgain(r: Run, d: Parser, q: Parser, alive: bool, stops: bool, b: Body, ev: seq<Event>, n: nat)
    requires Finished(r, d, alive, stops, b, ev, n) && SameLine(d, q)
    ensures Finished(r, q, alive, stops, b, ev, n)
  {
  }

  lemma BodyFinishes(q: Parser, d: Parser, fs: seq<Field>, b: Body, ev: seq<Event>, n: nat)
    requires Heads(q, d, fs, b) && d.nread <= MAX_HEADER_SIZE && ProperBody(b, q.lenient)
    requires d.httpMajor == q.httpMajor && d.httpMinor == q.httpMinor && d.lenient == q.lenient
    ensures Finished(RunFrom(Ended(AlmostDone(d, LF), ev, n), BodyWritten(b)), d,
                     Alive(q.httpMajor, q.httpMinor, fs + TrailerOf(b)), Stops(d, fs), b, ev, n + 1 + |BodyWritten(b)|)
  {
    hide Heads, Alive, AlmostDone, RunFrom, ProperBody, Finished, Stops, TrailedBody;
    assert fs + [] == fs;
    match b
    case Nothing =>
      NothingRun(Ended(AlmostDone(d, LF), ev, n));
      NothingFinishes(q, d, fs, ev, n);
    case Fixed(text) => FixedFinishes(q, d, fs, text, ev, n);
    case Chunks(_, _, _) =>
      HeadBounded(q, d, fs, b);
      ChunksFinish(q, d, fs, b, ev, n);
    case UntilEnd(text) =>
      UntilEndFinishes(q, d, fs, text, ev, n, Alive(q.httpMajor, q.httpMinor, fs + []), Stops(d, fs));
  }

  lemma HeadBounded(q: Parser, d: Parser, fs: seq<Field>, b: Body)
    requires Heads(q, d, fs, b) && d.nread <= MAX_HEADER_SIZE
    ensures Bounded(d)
  {
    hide Said, Frames, AfterFirstLine, Lengths;
  }

  // ----- whole messages

  /** A request: the request line, the fields, the empty line, the body. */
  datatype Request = Request(start: RequestStart, fields: seq<Field>, end: Bytes, body: Body)

  /** A response, with a status line instead. */
  datatype Response = Response(start: StatusStart, fields: seq<Field>, end: Bytes, body: Body)

  ghost predicate ProperRequest(m: Request, lenient: bool) {
    && ProperRequestLine(m.start) && AllAllowed(m.fields, lenient) && Lengths(m.fields) <= 1 && LineEnd(m.end)
    && Frames(HttpRequest, m.start.verb, 0, lenient, m.fields, m.body) && ProperBody(m.body, lenient)
  }

  ghost predicate ProperResponse(m: Response, lenient: bool) {
    && ProperStatusLine(m.start) && AllAllowed(m.fields, lenient) && Lengths(m.fields) <= 1 && LineEnd(m.end)
    && Frames(HttpResponse, GET, Numeral(0, m.start.code), lenient, m.fields, m.body) && ProperBody(m.body, lenient)
  }

  /** What follows the first line. */
  function RestText(fs: seq<Field>, end: Bytes, b: Body): Bytes {
    TrailerText(fs) + end + BodyWritten(b)
  }

  ghost function RequestText(m: Request): Bytes
    requires ProperRequestLine(m.start)
  {
    RequestLineText(m.start) + RestText(m.fields, m.end, m.body)
  }

  ghost function ResponseText(m: Response): Bytes
    requires ProperStatusLine(m.start)
  {
    StatusLineText(m.start) + RestText(m.fields, m.end, m.body)
  }

  /** How much of a request counts as header. */
  ghost function RequestHead(m: Request): nat
    requires ProperRequestLine(m.start)
  {
    |RequestLineText(m.start)| + |TrailerText(m.fields)| + |m.end|
  }

  ghost function ResponseHead(m: Response): nat
    requires ProperStatusLine(m.start)
  {
    |StatusLineText(m.start)| + |TrailerText(m.fields)| + |m.end|
  }

  /** All that is told of a message. */
  function EventsOf(line: Event, fs: seq<Field>, b: Body): seq<Event> {
    [MessageBegin, line] + TrailerEvents(fs) + [HeadersComplete] + BodyEvents(b)
  }

  function RequestEvents(m: Request): seq<Event> {
    EventsOf(Data(UrlText, C.Written(m.start.url)), m.fields, m.body)
  }

  function ResponseEvents(m: Response): seq<Event> {
    EventsOf(Data(StatusText, ReasonOf(m.start)), m.fields, m.body)
  }

  lemma AfterRequestIs(p: Parser, s: RequestStart, nread: nat)
    requires p.kind == HttpRequest
    ensures var q := AfterRequestLine(p, s, nread);
      AfterFirstLine(q) && q.verb == s.verb && q.httpMajor == s.major && q.httpMinor == s.minor &&
      q.kind == HttpRequest && q.lenient == p.lenient && q.nread == nread
  {
  }

  lemma AfterStatusIs(p: Parser, s: StatusStart, nread: nat)
    requires p.kind == HttpResponse && AllDigits(s.code)
    ensures var q := AfterStatusLine(p, s, nread);
      AfterFirstLine(q) && q.verb == p.verb && q.httpMajor == s.major && q.httpMinor == s.minor &&
      q.statusCode == Numeral(0, s.code) && q.kind == HttpResponse && q.lenient == p.lenient && q.nread == nread
  {
  }

  /** The status code matters to the framing of responses only, and the verb to that of requests. */
  lemma SameFrames(kind: Type, verb: Method, verb': Method, code: nat, code': nat, lenient: bool, fs: seq<Field>,
                   b: Body)
    requires Frames(kind, verb, code, lenient, fs, b) && (if kind == HttpRequest then verb == verb' else code == code')
    requires kind != HttpRequest ==> verb != CONNECT && verb' != CONNECT
    ensures Frames(kind, verb', code', lenient, fs, b)
    ensures Switches(kind, verb, code, fs) == Switches(kind, verb', code', fs)
  {
    hide SomeCoding, SomeChunked, SomeOption, SomeUpgrade, Lengths;
  }

  /** What one call makes of a message that is finished. */
  lemma Flushed(p: Parser, text: Bytes, d: Parser, alive: bool, stops: bool, b: Body, line: Event, fs: seq<Field>)
    requires SlotOf(p.state).Outside?
    requires Finished(RunFrom(Running(p, None, [], 0), text), d, alive, stops, b,
                      [MessageBegin, line] + TrailerEvents(fs), |text|)
    ensures var r := Call(p, text);
      !r.Failed? && (r.Stopped? <==> !b.UntilEnd? && stops) && r.read == |text| &&
      r.events == EventsOf(line, fs, b) && SameLine(d, r.p) &&
      r.p.state == if b.UntilEnd? then BodyIdentityEof else After(d.kind, alive)
  {
    hide RunFrom, TrailerEvents, After, TrailedEvents;
    var r := RunFrom(Running(p, None, [], 0), text);
    assert Start(p) == Running(p, None, [], 0);
    assert r.events + [] == r.events;
    var head := [MessageBegin, line] + TrailerEvents(fs) + [HeadersComplete];
    assert head + [] == head;
  }

  /** A request is read as it was written: from any parser where one may start, made for requests
      or for both kinds, one call tells the beginning, the URL, the fields, their end, the body
      and its end, each once, and stops only where another protocol follows. */
  lemma RequestRead(p: Parser, m: Request)
    requires MayStart(p, HttpRequest) && ProperRequest(m, p.lenient) && p.nread + RequestHead(m) <= MAX_HEADER_SIZE
    ensures var r := Call(p, RequestText(m));
      !r.Failed? && r.p.kind == HttpRequest &&
      (r.Stopped? <==> !m.body.UntilEnd? && Switches(HttpRequest, m.start.verb, 0, m.fields)) &&
      r.read == |RequestText(m)| && r.events == RequestEvents(m) && r.p.verb == m.start.verb &&
        r.p.httpMajor == m.start.major &&
      r.p.httpMinor == m.start.minor &&
      r.p.state == if m.body.UntilEnd? then BodyIdentityEof
                   else After(HttpRequest, Alive(m.start.major, m.start.minor, m.fields + TrailerOf(m.body)))
  {
    var q := RequestFinishes(p, m);
    SlotAtStart(p);
    hide *;
    Flushed(p, RequestText(m), q, Alive(m.start.major, m.start.minor, m.fields + TrailerOf(m.body)),
            Switches(HttpRequest, m.start.verb, 0, m.fields), m.body,
            Data(UrlText, C.Written(m.start.url)), m.fields);
    TextOfLine(Call(p, RequestText(m)), q);
    assert RequestEvents(m) == EventsOf(Data(UrlText, C.Written(m.start.url)), m.fields, m.body) by {
      RequestEventsAre(m);
    }
  }

  lemma RequestEventsAre(m: Request)
    ensures RequestEvents(m) == EventsOf(Data(UrlText, C.Written(m.start.url)), m.fields, m.body)
  {
  }

  lemma TextOfLine(r: Run, q: Parser)
    requires !r.Failed? && SameLine(q, r.p)
    ensures r.p.verb == q.verb && r.p.httpMajor == q.httpMajor && r.p.httpMinor == q.httpMinor &&
            r.p.statusCode == q.statusCode
  {
  }

  /** The run over a whole request. */
  lemma RequestFinishes(p: Parser, m: Request) returns (q: Parser)
    requires MayStart(p, HttpRequest) && ProperRequest(m, p.lenient) && p.nread + RequestHead(m) <= MAX_HEADER_SIZE
    ensures q.kind == HttpRequest && q.verb == m.start.verb && q.httpMajor == m.start.major &&
            q.httpMinor == m.start.minor && q.lenient == p.lenient
    ensures Finished(RunFrom(Running(p, None, [], 0), RequestText(m)), q,
                     Alive(m.start.major, m.start.minor, m.fields + TrailerOf(m.body)),
                     Switches(HttpRequest, m.start.verb, 0, m.fields), m.body,
                     [MessageBegin, Data(UrlText, C.Written(m.start.url))] + TrailerEvents(m.fields), |RequestText(m)|)
  {
    hide *;
    RequestParts(m, p.lenient);
    var s, text := m.start, RequestLineText(m.start);
    var ev := [MessageBegin, Data(UrlText, C.Written(s.url))];
    var made := MadeFor(p, HttpRequest);
    AlreadyMade(p, HttpRequest);
    q := AfterRequestLine(made, s, p.nread + |text|);
    AfterRequestIs(made, s, p.nread + |text|);
    EitherLine(p, s, RestText(m.fields, m.end, m.body));
    RunSplit(Running(made, None, [], 0), text, RestText(m.fields, m.end, m.body));
    RequestLineRuns(made, s);
    SameFrames(HttpRequest, s.verb, s.verb, 0, q.statusCode, p.lenient, m.fields, m.body);
    StopsIs(q, m.fields);
    MessageRuns(q, m.fields, m.end, m.body, ev, |text|);
  }

  lemma EitherLine(p: Parser, s: RequestStart, rest: Bytes)
    requires MayStart(p, HttpRequest) && ProperRequestLine(s) && p.nread + |RequestLineText(s)| <= MAX_HEADER_SIZE
    ensures RunFrom(Running(p, None, [], 0), RequestLineText(s) + rest) ==
            RunFrom(Running(MadeFor(p, HttpRequest), None, [], 0), RequestLineText(s) + rest)
  {
    hide RunFrom, Names, Spaces, C.Formed, C.Written, LineEnd, Version, MayStart, MadeFor;
    var more := s.gap + C.Written(s.url) + s.space + Version(s.major, s.minor) + s.end;
    assert RequestLineText(s) == s.name + more;
    assert RequestLineText(s) + rest == s.name + (more + rest);
    EitherRequest(p, s.verb, s.name, more + rest);
  }

  lemma RequestParts(m: Request, lenient: bool)
    requires ProperRequest(m, lenient)
    ensures ProperRequestLine(m.start) && m.start.major < 10 && m.start.minor < 10
    ensures AllAllowed(m.fields, lenient) && Lengths(m.fields) <= 1 && LineEnd(m.end)
    ensures Frames(HttpRequest, m.start.verb, 0, lenient, m.fields, m.body) && ProperBody(m.body, lenient)
    ensures RequestText(m) == RequestLineText(m.start) + RestText(m.fields, m.end, m.body)
    ensures RestText(m.fields, m.end, m.body) == TrailerText(m.fields) + m.end + BodyWritten(m.body)
    ensures RequestHead(m) == |RequestLineText(m.start)| + |TrailerText(m.fields)| + |m.end|
  {
  }

  lemma StopsIs(q: Parser, fs: seq<Field>)
    ensures Stops(q, fs) == Switches(q.kind, q.verb, q.statusCode, fs)
  {
  }

  /** Fields that frame the body twice are refused where they end: a request with a coding and a
      length has no body told, whatever follows, but for a lenient parser without chunks. */
  lemma BothRefused(p: Parser, s: RequestStart, fs: seq<Field>, end: Bytes, rest: Bytes)
    requires MayStart(p, HttpRequest) && ProperRequestLine(s)
    requires AllAllowed(fs, p.lenient) && Lengths(fs) == 1 && FramedTwice(p.lenient, fs) && LineEnd(end)
    requires p.nread + |RequestLineText(s)| + |TrailerText(fs)| + |end| <= MAX_HEADER_SIZE
    ensures var r := Call(p, RequestLineText(s) + (TrailerText(fs) + end) + rest);
      r.Failed? && r.errno == UnexpectedContentLength &&
      r.events == [MessageBegin, Data(UrlText, C.Written(s.url))] + TrailerEvents(fs)
  {
    hide *;
    var q, d, n := HeadOfRequest(p, s, fs, end);
    TwiceFramed(q, d, fs, [MessageBegin, Data(UrlText, C.Written(s.url))] + TrailerEvents(fs), n);
    Refused(p, s, fs, end, rest, UnexpectedContentLength, n,
            [MessageBegin, Data(UrlText, C.Written(s.url))] + TrailerEvents(fs));
  }

  /** A request whose last coding is not chunked has no body that could be told from what follows:
      it is refused once the end of the fields is told, but for a lenient parser, and unless
      another protocol follows at once. */
  lemma CodingRefused(p: Parser, s: RequestStart, fs: seq<Field>, end: Bytes, rest: Bytes)
    requires MayStart(p, HttpRequest) && ProperRequestLine(s) && !p.lenient
    requires AllAllowed(fs, p.lenient) && Lengths(fs) == 0 && SomeCoding(fs) && !SomeChunked(fs) && LineEnd(end)
    requires !Switches(HttpRequest, s.verb, 0, fs)
    requires p.nread + |RequestLineText(s)| + |TrailerText(fs)| + |end| <= MAX_HEADER_SIZE
    ensures var r := Call(p, RequestLineText(s) + (TrailerText(fs) + end) + rest);
      r.Failed? && r.errno == InvalidTransferEncoding &&
      r.events == [MessageBegin, Data(UrlText, C.Written(s.url))] + TrailerEvents(fs) + [HeadersComplete]
  {
    hide *;
    var q, d, n := HeadOfRequest(p, s, fs, end);
    NoChunks(q, d, fs, [MessageBegin, Data(UrlText, C.Written(s.url))] + TrailerEvents(fs), n);
    Refused(p, s, fs, end, rest, InvalidTransferEncoding, n,
            [MessageBegin, Data(UrlText, C.Written(s.url))] + TrailerEvents(fs) + [HeadersComplete]);
  }

  lemma Refused(p: Parser, s: RequestStart, fs: seq<Field>, end: Bytes, rest: Bytes, e: Errno, n: nat, ev: seq<Event>)
    requires MayStart(p, HttpRequest) && ProperRequestLine(s) && s.major < 10 && s.minor < 10
    requires RunFrom(Running(p, None, [], 0), RequestLineText(s) + (TrailerText(fs) + end)) == Failed(e, None, ev, n)
    ensures var r := Call(p, RequestLineText(s) + (TrailerText(fs) + end) + rest);
      r.Failed? && r.errno == e && r.events == ev
  {
    hide *;
    SlotAtStart(p);
    var head, r0 := RequestLineText(s) + (TrailerText(fs) + end), Running(p, None, [], 0);
    RunSplit(r0, head, rest);
    Absorbed(RunFrom(r0, head), rest);
    FailedCall(p, head + rest);
  }

  /** The run over a request up to the end of its fields. */
  lemma HeadOfRequest(p: Parser, s: RequestStart, fs: seq<Field>, end: Bytes) returns (q: Parser, d: Parser, n: nat)
    requires MayStart(p, HttpRequest) && ProperRequestLine(s)
    requires AllAllowed(fs, p.lenient) && Lengths(fs) <= 1 && LineEnd(end)
    requires p.nread + |RequestLineText(s)| + |TrailerText(fs)| + |end| <= MAX_HEADER_SIZE
    ensures s.major < 10 && s.minor < 10
    ensures AfterFirstLine(q) && q.kind == HttpRequest && q.verb == s.verb && q.lenient == p.lenient && Said(q, d, fs)
    ensures AllAllowed(fs, q.lenient)
    ensures RunFrom(Running(p, None, [], 0), RequestLineText(s) + (TrailerText(fs) + end)) ==
            Ended(AlmostDone(d, LF), [MessageBegin, Data(UrlText, C.Written(s.url))] + TrailerEvents(fs), n)
  {
    hide *;
    LineWritten(s);
    var text := RequestLineText(s);
    var made := MadeFor(p, HttpRequest);
    AlreadyMade(p, HttpRequest);
    var r0 := Running(made, None, [], 0);
    q := AfterRequestLine(made, s, p.nread + |text|);
    AfterRequestIs(made, s, p.nread + |text|);
    EitherLine(p, s, TrailerText(fs) + end);
    RunSplit(r0, text, TrailerText(fs) + end);
    RequestLineRuns(made, s);
    FirstFacts(q, end);
    d := FieldsThenEnd(q, fs, end, [MessageBegin, Data(UrlText, C.Written(s.url))], |text|);
    n := |text| + (|TrailerText(fs)| + |end|) - 1;
  }

  lemma LineWritten(s: RequestStart)
    requires ProperRequestLine(s)
    ensures s.major < 10 && s.minor < 10
  {
  }

  lemma TwiceFramed(q: Parser, d: Parser, fs: seq<Field>, ev: seq<Event>, n: nat)
    requires AfterFirstLine(q) && Said(q, d, fs) && Lengths(fs) == 1 && FramedTwice(q.lenient, fs)
    ensures Ended(AlmostDone(d, LF), ev, n) == Failed(UnexpectedContentLength, None, ev, n)
  {
    SaidLine(q, d, fs);
    hide SomeCoding, SomeChunked, SomeOption, SomeUpgrade, AllDone;
    assert ev + [] == ev;
  }

  lemma NoChunks(q: Parser, d: Parser, fs: seq<Field>, ev: seq<Event>, n: nat)
    requires AfterFirstLine(q) && Said(q, d, fs) && q.kind == HttpRequest && !q.lenient && AllAllowed(fs, q.lenient)
    requires Lengths(fs) == 0 && SomeCoding(fs) && !SomeChunked(fs) && !Switches(HttpRequest, q.verb, 0, fs)
    ensures Ended(AlmostDone(d, LF), ev, n) == Failed(InvalidTransferEncoding, None, ev + [HeadersComplete], n)
  {
    HeadEnds(q, d, fs);
    SaidLine(q, d, fs);
    SwitchingIs(q, d, fs);
    hide SomeCoding, SomeChunked, SomeOption, SomeUpgrade, AlmostDone, AllAllowed, Said;
    CodedOutcome(d);
  }

  lemma FailedCall(p: Parser, text: Bytes)
    requires SlotOf(p.state).Outside? && RunFrom(Running(p, None, [], 0), text).Failed?
    ensures Call(p, text) == RunFrom(Running(p, None, [], 0), text)
  {
    hide RunFrom;
  }

  lemma SlotAtStart(p: Parser)
    requires MayStart(p, HttpRequest) || MayStart(p, HttpResponse)
    ensures SlotOf(p.state).Outside?
  {
  }

  /** A response is read as it was written; a body that ends with the connection is still open. */
  lemma ResponseRead(p: Parser, m: Response)
    requires MayStart(p, HttpResponse) && p.verb != CONNECT
    requires ProperResponse(m, p.lenient) && p.nread + ResponseHead(m) <= MAX_HEADER_SIZE
    ensures var r := Call(p, ResponseText(m));
      !r.Failed? && r.p.kind == HttpResponse &&
      (r.Stopped? <==> !m.body.UntilEnd? && Switches(HttpResponse, GET, Numeral(0, m.start.code), m.fields)) &&
      r.read == |ResponseText(m)| && r.events == ResponseEvents(m) &&
      r.p.statusCode == Numeral(0, m.start.code) && r.p.httpMajor == m.start.major &&
      r.p.httpMinor == m.start.minor && r.p.verb == p.verb &&
      r.p.state == if m.body.UntilEnd? then BodyIdentityEof
                   else After(HttpResponse, Alive(m.start.major, m.start.minor, m.fields + TrailerOf(m.body)))
  {
    var q := ResponseFinishes(p, m);
    SlotAtStart(p);
    hide *;
    Flushed(p, ResponseText(m), q, Alive(m.start.major, m.start.minor, m.fields + TrailerOf(m.body)),
            Switches(HttpResponse, GET, Numeral(0, m.start.code), m.fields), m.body,
            Data(StatusText, ReasonOf(m.start)), m.fields);
    TextOfLine(Call(p, ResponseText(m)), q);
    assert ResponseEvents(m) == EventsOf(Data(StatusText, ReasonOf(m.start)), m.fields, m.body) by {
      ResponseEventsAre(m);
    }
  }

  lemma ResponseEventsAre(m: Response)
    ensures ResponseEvents(m) == EventsOf(Data(StatusText, ReasonOf(m.start)), m.fields, m.body)
  {
  }

  /** The run over a whole response. */
  lemma ResponseFinishes(p: Parser, m: Response) returns (q: Parser)
    requires MayStart(p, HttpResponse) && p.verb != CONNECT
    requires ProperResponse(m, p.lenient) && p.nread + ResponseHead(m) <= MAX_HEADER_SIZE
    ensures q.kind == HttpResponse && q.verb == p.verb && q.httpMajor == m.start.major &&
            q.httpMinor == m.start.minor && AllDigits(m.start.code) && q.statusCode == Numeral(0, m.start.code)
    ensures Finished(RunFrom(Running(p, None, [], 0), ResponseText(m)), q,
                     Alive(m.start.major, m.start.minor, m.fields + TrailerOf(m.body)),
                     Switches(HttpResponse, GET, Numeral(0, m.start.code), m.fields), m.body,
                     [MessageBegin, Data(StatusText, ReasonOf(m.start))] + TrailerEvents(m.fields), |ResponseText(m)|)
  {
    hide *;
    ResponseParts(m, p.lenient);
    var s, text := m.start, StatusLineText(m.start);
    var ev := [MessageBegin, Data(StatusText, ReasonOf(s))];
    var made := MadeFor(p, HttpResponse);
    AlreadyMade(p, HttpResponse);
    q := AfterStatusLine(made, s, p.nread + |text|);
    AfterStatusIs(made, s, p.nread + |text|);
    EitherStatus(p, s, RestText(m.fields, m.end, m.body));
    RunSplit(Running(made, None, [], 0), text, RestText(m.fields, m.end, m.body));
    StatusLineRuns(made, s);
    SameFrames(HttpResponse, GET, q.verb, Numeral(0, s.code), q.statusCode, p.lenient, m.fields, m.body);
    StopsIs(q, m.fields);
    MessageRuns(q, m.fields, m.end, m.body, ev, |text|);
  }

  lemma EitherStatus(p: Parser, s: StatusStart, rest: Bytes)
    requires MayStart(p, HttpResponse) && ProperStatusLine(s) && p.nread + |StatusLineText(s)| <= MAX_HEADER_SIZE
    ensures RunFrom(Running(p, None, [], 0), StatusLineText(s) + rest) ==
            RunFrom(Running(MadeFor(p, HttpResponse), None, [], 0), StatusLineText(s) + rest)
  {
    hide RunFrom, Spaces, LineEnd, Version, Numeral, AllDigits, IsReason, MayStart, MadeFor;
    VersionLength(s.major, s.minor);
    var more := s.gap + s.code + (if s.reason.Some? then [SPACE] + s.reason.value else []) + s.end;
    assert StatusLineText(s) == Version(s.major, s.minor) + more;
    assert StatusLineText(s) + rest == Version(s.major, s.minor) + (more + rest);
    EitherResponse(p, s.major, s.minor, more + rest);
  }

  lemma ResponseParts(m: Response, lenient: bool)
    requires ProperResponse(m, lenient)
    ensures ProperStatusLine(m.start) && m.start.major < 10 && m.start.minor < 10
    ensures AllAllowed(m.fields, lenient) && Lengths(m.fields) <= 1 && LineEnd(m.end)
    ensures AllDigits(m.start.code)
    ensures Frames(HttpResponse, GET, Numeral(0, m.start.code), lenient, m.fields, m.body) &&
            ProperBody(m.body, lenient)
    ensures ResponseText(m) == StatusLineText(m.start) + RestText(m.fields, m.end, m.body)
    ensures RestText(m.fields, m.end, m.body) == TrailerText(m.fields) + m.end + BodyWritten(m.body)
    ensures ResponseHead(m) == |StatusLineText(m.start)| + |TrailerText(m.fields)| + |m.end|
  {
  }

  // ----- what the callbacks add up to

  /** Neither data of the kind nor the note. */
  ghost predicate Lacks(kind: Kind, note: Event, es: seq<Event>) {
    Gathered(kind, es) == [] && Times(note, es) == 0
  }

  lemma LacksBoth(kind: Kind, note: Event, a: seq<Event>, b: seq<Event>)
    requires Lacks(kind, note, a) && Lacks(kind, note, b)
    ensures Lacks(kind, note, a + b)
  {
    GatheredSplit(kind, a, b);
    TimesSplit(note, a, b);
  }

  lemma LacksNothing(kind: Kind, note: Event)
    ensures Lacks(kind, note, [])
  {
  }

  lemma {:induction false} FieldsLack(kind: Kind, note: Event, fs: seq<Field>)
    requires kind != HeaderFieldText && kind != HeaderValueText && !note.Data?
    ensures Lacks(kind, note, TrailerEvents(fs))
    decreases |fs|
  {
    hide Gathered, Times;
    if fs == [] {
      LacksNothing(kind, note);
    } else {
      var a, b := Data(HeaderFieldText, fs[0].name), Data(HeaderValueText, fs[0].value);
      OneEvent(kind, note, a);
      OneEvent(kind, note, b);
      assert FieldEvents(fs[0]) == [a] + [b];
      LacksBoth(kind, note, [a], [b]);
      FieldsLack(kind, note, fs[1..]);
      LacksBoth(kind, note, FieldEvents(fs[0]), TrailerEvents(fs[1..]));
    }
  }

  lemma {:induction false} ChunksLack(kind: Kind, note: Event, chunks: seq<ChunkText>, fs: seq<Field>)
    requires (kind == UrlText || kind == StatusText) && (note == MessageBegin || note == HeadersComplete)
    ensures Lacks(kind, note, TrailedEvents(chunks, fs))
    decreases |chunks|
  {
    hide Gathered, Times, TrailerEvents;
    if chunks == [] {
      OneEvent(kind, note, ChunkHeader(0));
      OneEvent(kind, note, ChunkComplete);
      OneEvent(kind, note, MessageComplete);
      FieldsLack(kind, note, fs);
      assert [ChunkComplete, MessageComplete] == [ChunkComplete] + [MessageComplete];
      LacksBoth(kind, note, [ChunkComplete], [MessageComplete]);
      LacksBoth(kind, note, [ChunkHeader(0)], TrailerEvents(fs));
      LacksBoth(kind, note, [ChunkHeader(0)] + TrailerEvents(fs), [ChunkComplete, MessageComplete]);
    } else {
      var c := chunks[0];
      OneEvent(kind, note, ChunkHeader(|c.payload|));
      OneEvent(kind, note, Data(BodyText, c.payload));
      OneEvent(kind, note, ChunkComplete);
      assert ChunkEvents(c) == [ChunkHeader(|c.payload|)] + [Data(BodyText, c.payload)] + [ChunkComplete];
      LacksBoth(kind, note, [ChunkHeader(|c.payload|)], [Data(BodyText, c.payload)]);
      LacksBoth(kind, note, [ChunkHeader(|c.payload|)] + [Data(BodyText, c.payload)], [ChunkComplete]);
      ChunksLack(kind, note, chunks[1..], fs);
      LacksBoth(kind, note, ChunkEvents(c), TrailedEvents(chunks[1..], fs));
    }
  }

  lemma BodyLacks(kind: Kind, note: Event, b: Body)
    requires (kind == UrlText || kind == StatusText) && (note == MessageBegin || note == HeadersComplete)
    ensures Lacks(kind, note, BodyEvents(b))
  {
    hide Gathered, Times, TrailedEvents;
    OneEvent(kind, note, MessageComplete);
    OneEvent(kind, note, Data(BodyText, Content(b)));
    LacksNothing(kind, note);
    match b
    case Nothing =>
    case Fixed(content) => LacksBoth(kind, note, ContentEvents(content), [MessageComplete]);
    case Chunks(chunks, _, trailer) => ChunksLack(kind, note, chunks, trailer);
    case UntilEnd(content) =>
  }

  /** The body is told, and its end. */
  lemma BodyAddsUp(b: Body)
    ensures BodyOf(BodyEvents(b)) == Content(b) && Completions(BodyEvents(b)) == if b.UntilEnd? then 0 else 1
  {
    hide BodyOf, Completions, TrailedEvents, Payload;
    BodyOfOne(MessageComplete);
    BodyOfOne(Data(BodyText, Content(b)));
    NoEvents();
    match b
    case Nothing =>
    case Fixed(content) => BodySplit(ContentEvents(content), [MessageComplete]);
    case Chunks(chunks, _, trailer) => TrailedAddUp(chunks, trailer);
    case UntilEnd(content) =>
  }

  /** One beginning, one end of the fields, and the first line's data. */
  lemma StartAddsUp(line: Event, fs: seq<Field>, b: Body)
    requires line.Data? && (line.kind == UrlText || line.kind == StatusText)
    ensures var es := EventsOf(line, fs, b);
      Times(MessageBegin, es) == 1 && Times(HeadersComplete, es) == 1 && Gathered(line.kind, es) == line.bytes
  {
    hide Gathered, Times, TrailerEvents, BodyEvents;
    var k, body := line.kind, BodyEvents(b);
    var a := [MessageBegin, line] + TrailerEvents(fs);
    forall note | note in {MessageBegin, HeadersComplete}
      ensures Times(note, EventsOf(line, fs, b)) == 1 && Gathered(k, EventsOf(line, fs, b)) == line.bytes
    {
      FieldsLack(k, note, fs);
      BodyLacks(k, note, b);
      OneEvent(k, note, MessageBegin);
      OneEvent(k, note, line);
      OneEvent(k, note, HeadersComplete);
      assert [MessageBegin, line] == [MessageBegin] + [line];
      Counted(k, note, [MessageBegin], [line], TrailerEvents(fs), [HeadersComplete], body);
    }
    assert MessageBegin in {MessageBegin, HeadersComplete} && HeadersComplete in {MessageBegin, HeadersComplete};
  }

  lemma Counted(k: Kind, note: Event, a: seq<Event>, b: seq<Event>, c: seq<Event>, d: seq<Event>, e: seq<Event>)
    ensures Times(note, a + b + c + d + e) ==
            Times(note, a) + Times(note, b) + Times(note, c) + Times(note, d) + Times(note, e)
    ensures Gathered(k, a + b + c + d + e) ==
            Gathered(k, a) + Gathered(k, b) + Gathered(k, c) + Gathered(k, d) + Gathered(k, e)
  {
    hide Gathered, Times;
    GatheredSplit(k, a, b);
    GatheredSplit(k, a + b, c);
    GatheredSplit(k, a + b + c, d);
    GatheredSplit(k, a + b + c + d, e);
    TimesSplit(note, a, b);
    TimesSplit(note, a + b, c);
    TimesSplit(note, a + b + c, d);
    TimesSplit(note, a + b + c + d, e);
  }

  /** The body, and how often the message ends before the connection does. */
  lemma EndAddsUp(line: Event, fs: seq<Field>, b: Body)
    requires line.Data? && line.kind != BodyText
    ensures var es := EventsOf(line, fs, b);
      BodyOf(es) == Content(b) && Completions(es) == if b.UntilEnd? then 0 else 1
  {
    hide Gathered, Times, TrailerEvents, BodyEvents;
    FieldsLack(BodyText, MessageComplete, fs);
    BodyAddsUp(b);
    OneEvent(BodyText, MessageComplete, MessageBegin);
    OneEvent(BodyText, MessageComplete, line);
    OneEvent(BodyText, MessageComplete, HeadersComplete);
    assert [MessageBegin, line] == [MessageBegin] + [line];
    Counted(BodyText, MessageComplete, [MessageBegin], [line], TrailerEvents(fs), [HeadersComplete], BodyEvents(b));
    assert [] + Content(b) == Content(b);
  }

  /** Everything that the callbacks of one message tell, however they are cut up. */
  ghost predicate ToldOnce(events: seq<Event>, line: Event, b: Body, ends: nat)
    requires line.Data?
  {
    && Times(MessageBegin, events) == 1 && Times(HeadersComplete, events) == 1 && Completions(events) == ends
    && Gathered(line.kind, events) == line.bytes && BodyOf(events) == Content(b)
  }

  lemma ToldWhole(events: seq<Event>, line: Event, fs: seq<Field>, b: Body)
    requires line.Data? && (line.kind == UrlText || line.kind == StatusText)
    requires Join(events) == Join(EventsOf(line, fs, b))
    ensures ToldOnce(events, line, b, if b.UntilEnd? then 0 else 1)
  {
    hide Gathered, Times, Join, EventsOf;
    StartAddsUp(line, fs, b);
    EndAddsUp(line, fs, b);
    forall note | note in {MessageBegin, HeadersComplete, MessageComplete}
      ensures Times(note, events) == Times(note, EventsOf(line, fs, b))
    {
      Joined(line.kind, note, events);
      Joined(line.kind, note, EventsOf(line, fs, b));
    }
    Joined(line.kind, MessageBegin, events);
    Joined(line.kind, MessageBegin, EventsOf(line, fs, b));
    SameBody(events, EventsOf(line, fs, b));
    assert MessageBegin in {MessageBegin, HeadersComplete, MessageComplete};
    assert HeadersComplete in {MessageBegin, HeadersComplete, MessageComplete};
  }

  // ----- sessions

  /** A session that receives a request, in whatever pieces: no call fails, all of it is read, and
      the beginning, the fields' end and the message's end are told once each, with the URL and
      the body that were sent; the parser then holds the method and the version that were
      written, and stands where the next message may begin, if one may. */
  method ReceiveRequest(parser: HttpParser, pieces: seq<Bytes>, ghost m: Request) returns (read: nat)
    requires parser.Valid() && parser.errno.None?
    requires MayStart(parser.it, HttpRequest)
    requires ProperRequest(m, parser.it.lenient) && parser.it.nread + RequestHead(m) <= MAX_HEADER_SIZE
    requires pieces != [] && AllHaveData(pieces) && Flatten(pieces) == RequestText(m)
    requires forall k :: 0 <= k < |pieces| ==> |pieces[k]| <= MAX_DATA
    modifies parser
    ensures parser.Valid() && parser.errno.None? && read == |Flatten(pieces)| && old(parser.told) <= parser.told
    ensures Join(parser.told[|old(parser.told)|..]) ==
            Join(RequestEvents(m) + if m.body.UntilEnd? then [MessageComplete] else [])
    ensures ToldOnce(parser.told[|old(parser.told)|..], Data(UrlText, C.Written(m.start.url)), m.body, 1)
    ensures parser.it.kind == HttpRequest && parser.it.verb == m.start.verb && Names(m.start.name, parser.it.verb)
    ensures parser.it.httpMajor == m.start.major && parser.it.httpMinor == m.start.minor
    ensures parser.it.state == if m.body.UntilEnd? then BodyIdentityEof
      else After(HttpRequest, Alive(m.start.major, m.start.minor, m.fields + TrailerOf(m.body)))
  {
    hide *;
    RequestRead(parser.it, m);
    RequestParts(m, parser.it.lenient);
    ghost var before, whole := parser.told, Call(parser.it, RequestText(m));
    read := parser.ExecuteAll(pieces);
    DeliveredWhole(parser, whole, |Flatten(pieces)|, read, before);
    RequestEventsAre(m);
    NameWritten(m.start);
    ghost var line := Data(UrlText, C.Written(m.start.url));
    ToldWhole(parser.told[|before|..], line, m.fields, m.body);
    IdleAfter(HttpRequest, Alive(m.start.major, m.start.minor, m.fields + TrailerOf(m.body)));
    ghost var events := EndConnection(parser, before, m.body);
    EndTold(before, events, RequestEvents(m), m.body, line);
  }

  /** The end of the connection, after a message. */
  method EndConnection(parser: HttpParser, ghost before: seq<Event>, ghost b: Body) returns (ghost events: seq<Event>)
    requires parser.Valid() && parser.errno.None? && before <= parser.told
    requires if b.UntilEnd? then parser.it.state == BodyIdentityEof
             else HttpExecute.Idle(parser.it.state) && parser.it.state != BodyIdentityEof
    modifies parser
    ensures events == old(parser.told[|before|..]) && parser.it == old(parser.it)
    ensures parser.Valid() && parser.errno.None?
    ensures parser.told == before + events + if b.UntilEnd? then [MessageComplete] else []
  {
    events := parser.told[|before|..];
    assert parser.told == before + events;
    var none := parser.AtEnd();
  }

  lemma NameWritten(s: RequestStart)
    requires ProperRequestLine(s)
    ensures Names(s.name, s.verb)
  {
  }

  lemma DeliveredWhole(parser: HttpParser, whole: Run, total: nat, read: nat, before: seq<Event>)
    requires parser.Delivered(whole, total, read, before) && !whole.Failed? && whole.read == total
    ensures parser.errno.None? && parser.it == whole.p && read == total && before <= parser.told &&
            Join(parser.told[|before|..]) == Join(whole.events)
  {
  }

  /** The same for a response, up to the end of the connection. */
  method ReceiveResponse(parser: HttpParser, pieces: seq<Bytes>, ghost m: Response) returns (read: nat)
    requires parser.Valid() && parser.errno.None? && parser.it.verb != CONNECT
    requires MayStart(parser.it, HttpResponse)
    requires ProperResponse(m, parser.it.lenient) && parser.it.nread + ResponseHead(m) <= MAX_HEADER_SIZE
    requires pieces != [] && AllHaveData(pieces) && Flatten(pieces) == ResponseText(m)
    requires forall k :: 0 <= k < |pieces| ==> |pieces[k]| <= MAX_DATA
    modifies parser
    ensures parser.Valid() && parser.errno.None? && read == |Flatten(pieces)| && old(parser.told) <= parser.told
    ensures Join(parser.told[|old(parser.told)|..]) ==
            Join(ResponseEvents(m) + if m.body.UntilEnd? then [MessageComplete] else [])
    ensures ToldOnce(parser.told[|old(parser.told)|..], Data(StatusText, ReasonOf(m.start)), m.body, 1)
    ensures parser.it.kind == HttpResponse && AllDigits(m.start.code) &&
            parser.it.statusCode == Numeral(0, m.start.code)
    ensures parser.it.httpMajor == m.start.major && parser.it.httpMinor == m.start.minor
    ensures parser.it.state == if m.body.UntilEnd? then BodyIdentityEof
      else After(HttpResponse, Alive(m.start.major, m.start.minor, m.fields + TrailerOf(m.body)))
  {
    hide *;
    ResponseRead(parser.it, m);
    ResponseParts(m, parser.it.lenient);
    ghost var before, whole := parser.told, Call(parser.it, ResponseText(m));
    read := parser.ExecuteAll(pieces);
    DeliveredWhole(parser, whole, |Flatten(pieces)|, read, before);
    ResponseEventsAre(m);
    ghost var events, line := parser.told[|before|..], Data(StatusText, ReasonOf(m.start));
    ToldWhole(events, line, m.fields, m.body);
    IdleAfter(HttpResponse, Alive(m.start.major, m.start.minor, m.fields + TrailerOf(m.body)));
    events := EndConnection(parser, before, m.body);
    EndTold(before, events, ResponseEvents(m), m.body, line);
  }

  lemma IdleAfter(kind: Type, alive: bool)
    ensures !After(kind, alive).BodyIdentityEof? && HttpExecute.Idle(After(kind, alive))
  {
  }

  /** The end of the connection tells the end of the message where nothing else did. */
  lemma EndTold(before: seq<Event>, events: seq<Event>, all: seq<Event>, b: Body, line: Event)
    requires line.Data? && Join(events) == Join(all) && ToldOnce(events, line, b, if b.UntilEnd? then 0 else 1)
    ensures var last := if b.UntilEnd? then [MessageComplete] else [];
      (before + events + last)[|before|..] == events + last && Join(events + last) == Join(all + last) &&
      ToldOnce(events + last, line, b, 1)
  {
    hide Gathered, Times, Join;
    var last := if b.UntilEnd? then [MessageComplete] else [];
    assert (before + events + last)[|before|..] == events + last;
    JoinCongruence(events, all, last);
    if b.UntilEnd? {
      forall note | note in {MessageBegin, HeadersComplete, MessageComplete}
        ensures Times(note, events + last) == Times(note, events) + if note == MessageComplete then 1 else 0
      {
        TimesSplit(note, events, last);
        OneEvent(line.kind, note, MessageComplete);
      }
      assert MessageBegin in {MessageBegin, HeadersComplete, MessageComplete};
      assert HeadersComplete in {MessageBegin, HeadersComplete, MessageComplete};
      GatheredSplit(line.kind, events, last);
      GatheredSplit(BodyText, events, last);
      OneEvent(line.kind, MessageBegin, MessageComplete);
      OneEvent(BodyText, MessageBegin, MessageComplete);
      assert Gathered(line.kind, events) + [] == Gathered(line.kind, events);
      assert Gathered(BodyText, events) + [] == Gathered(BodyText, events);
    } else {
      assert events + [] == events && all + [] == all;
    }
  }
}
