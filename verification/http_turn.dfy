/** What http_parser_execute does with one byte: the switch, with every REEXECUTE followed
    to its end. Built with HTTP_PARSER_STRICT; every callback returns 0 and leaves the
    parser alone. A byte of a header name, a header value or a body is one turn here,
    where the code takes a whole run of them at once. */
module HttpTurn {
  import opened Bytes
  import opened HttpTypes

  /** What a turn does with the data marks: MARK; CALLBACK_DATA up to this byte; both, so that
      the data may be empty; or MARK and CALLBACK_DATA with this byte included. */
  datatype Op = Open(kind: Kind) | Close(kind: Kind) | Empty(kind: Kind) | Finish(kind: Kind)

  /** The parser goes on; or stops after this byte, as another protocol follows; or fails,
      perhaps after a few callbacks. */
  datatype Turn =
    | Go(p: Parser, ops: seq<Op>, notes: seq<Event>)
    | Quit(p: Parser, ops: seq<Op>, notes: seq<Event>)
    | Failing(errno: Errno, ops: seq<Op>, notes: seq<Event>)

  /** SET_ERRNO, before anything else is done with the byte. */
  function Fail(errno: Errno): Turn {
    Failing(errno, [], [])
  }

  function To(p: Parser, s: State): Turn {
    Go(p.(state := s), [], [])
  }

  function Mark(p: Parser, s: State, op: Op): Turn {
    Go(p.(state := s), [op], [])
  }

  /** STRICT_CHECK, then a new state. */
  function Expect(p: Parser, ok: bool, s: State): Turn {
    if ok then To(p, s) else Fail(Strict)
  }

  /** `++parser->index`, a field of five bits. */
  function Inc(index: nat): nat {
    (index + 1) % 32
  }

  /** The bytes that start a message afresh. */
  function Fresh(p: Parser): Parser {
    p.(flags := NO_FLAGS, transferEncoding := false, contentLength := ABSENT)
  }

  // ----- queries

  /** http_message_needs_eof. */
  predicate NeedsEof(p: Parser) {
    if p.kind == HttpRequest then false
    else if p.statusCode / 100 == 1 || p.statusCode == 204 || p.statusCode == 304 || p.flags.skipBody then false
    else if p.transferEncoding && !p.flags.chunked then true
    else !(p.flags.chunked || p.contentLength != ABSENT)
  }

  /** http_should_keep_alive. */
  predicate ShouldKeepAlive(p: Parser) {
    (if p.httpMajor > 0 && p.httpMinor > 0 then !p.flags.close else p.flags.keepAlive) && !NeedsEof(p)
  }

  /** NEW_MESSAGE in strict mode. */
  function NewMessage(p: Parser): State {
    if !ShouldKeepAlive(p) then Dead else if p.kind == HttpRequest then InRequest(StartReq) else InResponse(StartRes)
  }

  // ----- the first line

  function ToRes(p: Parser, r: ResState): Turn {
    To(p, InResponse(r))
  }

  function ResponseLine(p: Parser, r: ResState, ch: byte): Turn {
    match r
    case StartRes =>
      if ch == CR || ch == LF then ToRes(p, r)
      else if ch == 72 then Go(Fresh(p).(state := InResponse(ResH)), [], [MessageBegin])
      else Fail(InvalidConstant)
    case ResH => Expect(p, ch == 84, InResponse(ResHT))
    case ResHT => Expect(p, ch == 84, InResponse(ResHTT))
    case ResHTT => Expect(p, ch == 80, InResponse(ResHTTP))
    case ResHTTP => Expect(p, ch == 47, InResponse(ResHttpMajor))
    case ResHttpMajor => if IsDigit(ch) then ToRes(p.(httpMajor := ch - 48), ResHttpDot) else Fail(InvalidVersion)
    case ResHttpDot => if ch == DOT then ToRes(p, ResHttpMinor) else Fail(InvalidVersion)
    case ResHttpMinor => if IsDigit(ch) then ToRes(p.(httpMinor := ch - 48), ResHttpEnd) else Fail(InvalidVersion)
    case ResHttpEnd => if ch == SPACE then ToRes(p, ResFirstStatusCode) else Fail(InvalidVersion)
    case ResFirstStatusCode =>
      if IsDigit(ch) then ToRes(p.(statusCode := ch - 48), ResStatusCode)
      else if ch == SPACE then ToRes(p, r)
      else Fail(InvalidStatus)
    case ResStatusCode =>
      if IsDigit(ch) then
        var code := p.statusCode * 10 + (ch - 48);
        if code > 999 then Fail(InvalidStatus) else ToRes(p.(statusCode := code), ResStatusCode)
      else if ch == SPACE then ToRes(p, ResStatusStart)
      else if ch == CR || ch == LF then StatusStart(p, ch)
      else Fail(InvalidStatus)
    case ResStatusStart => StatusStart(p, ch)
    case ResStatus =>
      if ch == CR then Mark(p, InResponse(ResLineAlmostDone), Close(StatusText))
      else if ch == LF then Mark(p, Ending(HeaderFieldStart), Close(StatusText))
      else ToRes(p, ResStatus)
    case ResLineAlmostDone => Expect(p, ch == LF, Ending(HeaderFieldStart))
  }

  function StatusStart(p: Parser, ch: byte): Turn {
    var q := p.(index := 0);
    if ch == CR then Mark(q, InResponse(ResLineAlmostDone), Empty(StatusText))
    else if ch == LF then Mark(q, Ending(HeaderFieldStart), Empty(StatusText))
    else Mark(q, InResponse(ResStatus), Open(StatusText))
  }

  /** The method a first letter stands for, until later letters say otherwise. */
  function FirstMethod(ch: byte): Option<Method> {
    match ch
    case 65 => Some(ACL) case 66 => Some(BIND) case 67 => Some(CONNECT) case 68 => Some(DELETE)
    case 71 => Some(GET) case 72 => Some(HEAD) case 76 => Some(LOCK) case 77 => Some(MKCOL)
    case 78 => Some(NOTIFY) case 79 => Some(OPTIONS) case 80 => Some(POST) case 82 => Some(REPORT)
    case 83 => Some(SUBSCRIBE) case 84 => Some(TRACE) case 85 => Some(UNLOCK)
    case _ => None
  }

  /** The method that replaces `m` when the byte at `index` is not its own. */
  function Switched(m: Method, index: nat, ch: byte): Option<Method> {
    match (m, index, ch)
    case (POST, 1, 85) => Some(PUT)
    case (POST, 1, 65) => Some(PATCH)
    case (POST, 1, 82) => Some(PROPFIND)
    case (PUT, 2, 82) => Some(PURGE)
    case (CONNECT, 1, 72) => Some(CHECKOUT)
    case (CONNECT, 2, 80) => Some(COPY)
    case (MKCOL, 1, 79) => Some(MOVE)
    case (MKCOL, 1, 69) => Some(MERGE)
    case (MKCOL, 1, 45) => Some(MSEARCH)
    case (MKCOL, 2, 65) => Some(MKACTIVITY)
    case (MKCOL, 3, 65) => Some(MKCALENDAR)
    case (SUBSCRIBE, 1, 69) => Some(SEARCH)
    case (SUBSCRIBE, 1, 79) => Some(SOURCE)
    case (REPORT, 2, 66) => Some(REBIND)
    case (PROPFIND, 4, 80) => Some(PROPPATCH)
    case (LOCK, 1, 73) => Some(LINK)
    case (UNLOCK, 2, 83) => Some(UNSUBSCRIBE)
    case (UNLOCK, 2, 66) => Some(UNBIND)
    case (UNLOCK, 3, 73) => Some(UNLINK)
    case _ => None
  }

  function ToReq(p: Parser, q: ReqState): Turn {
    To(p, InRequest(q))
  }

  function StartRequest(p: Parser, ch: byte): Turn {
    if ch == CR || ch == LF then ToReq(p, StartReq)
    else match FirstMethod(ch)
      case Some(m) => Go(Fresh(p).(state := InRequest(ReqMethod), verb := m, index := 1), [], [MessageBegin])
      case None => Fail(InvalidMethod)
  }

  /** Where the method name is read: past its end only a space will do. */
  function MethodChar(p: Parser, ch: byte): Turn {
    var name, q := MethodName(p.verb), p.(index := Inc(p.index));
    if p.index > |name| then Fail(AssertionFailure)
    else if ch == NUL then Fail(InvalidMethod)
    else if ch == SPACE && p.index == |name| then ToReq(q, ReqSpacesBeforeUrl)
    else if p.index < |name| && ch == name[p.index] as int then ToReq(q, ReqMethod)
    else match Switched(p.verb, p.index, ch)
      case Some(m) => ToReq(q.(verb := m), ReqMethod)
      case None => Fail(InvalidMethod)
  }

  function UrlChar(p: Parser, from: UrlState, ch: byte, ops: seq<Op>): Turn {
    match ParseUrlChar(from, ch)
    case Some(u) => Go(p.(state := InUrl(u)), ops, [])
    case None => Fail(InvalidUrl)
  }

  function RequestLine(p: Parser, q: ReqState, ch: byte): Turn {
    match q
    case StartReq => StartRequest(p, ch)
    case ReqMethod => MethodChar(p, ch)
    case ReqSpacesBeforeUrl =>
      if ch == SPACE then ToReq(p, q)
      else UrlChar(p, if p.verb == CONNECT then ReqServerStart else UrlSpaces, ch, [Open(UrlText)])
    case ReqHttpStart =>
      if ch == SPACE then ToReq(p, q)
      else if ch == 72 then ToReq(p, ReqHttpH)
      else if ch == 73 && p.verb == SOURCE then ToReq(p, ReqHttpI)
      else Fail(InvalidConstant)
    case ReqHttpH => Expect(p, ch == 84, InRequest(ReqHttpHT))
    case ReqHttpHT => Expect(p, ch == 84, InRequest(ReqHttpHTT))
    case ReqHttpHTT => Expect(p, ch == 80, InRequest(ReqHttpHTTP))
    case ReqHttpI => Expect(p, ch == 67, InRequest(ReqHttpIC))
    case ReqHttpIC => Expect(p, ch == 69, InRequest(ReqHttpHTTP))
    case ReqHttpHTTP => Expect(p, ch == 47, InRequest(ReqHttpMajor))
    case ReqHttpMajor => if IsDigit(ch) then ToReq(p.(httpMajor := ch - 48), ReqHttpDot) else Fail(InvalidVersion)
    case ReqHttpDot => if ch == DOT then ToReq(p, ReqHttpMinor) else Fail(InvalidVersion)
    case ReqHttpMinor => if IsDigit(ch) then ToReq(p.(httpMinor := ch - 48), ReqHttpEnd) else Fail(InvalidVersion)
    case ReqHttpEnd =>
      if ch == CR then ToReq(p, ReqLineAlmostDone)
      else if ch == LF then To(p, Ending(HeaderFieldStart))
      else Fail(InvalidVersion)
    case ReqLineAlmostDone => if ch == LF then To(p, Ending(HeaderFieldStart)) else Fail(LfExpected)
  }

  /** The URL, once its first byte is read. */
  function Url(p: Parser, u: UrlState, ch: byte): Turn {
    if u.ReqSchema? || u.ReqSchemaSlash? || u.ReqSchemaSlashSlash? || u.ReqServerStart? then UrlChar(p, u, ch, [])
    else if ch == SPACE then Mark(p, InRequest(ReqHttpStart), Close(UrlText))
    else if ch == CR then Mark(p.(httpMajor := 0, httpMinor := 9), InRequest(ReqLineAlmostDone), Close(UrlText))
    else if ch == LF then Mark(p.(httpMajor := 0, httpMinor := 9), Ending(HeaderFieldStart), Close(UrlText))
    else UrlChar(p, u, ch, [])
  }

  // ----- header names

  function FieldStart(p: Parser, ch: byte): Turn {
    if ch == CR then To(p, Ending(HeadersAlmostDone))
    else if ch == LF then AlmostDone(p, ch)
    else
      var c := TokenOf(ch);
      if c == 0 then Fail(InvalidHeaderToken)
      else
        var h := if c == 99 then C else if c == 112 then MatchingProxyConnection
                 else if c == 116 then MatchingTransferEncoding else if c == 117 then MatchingUpgrade else General;
        Mark(p.(index := 0, headerState := h), HeaderField, Open(HeaderFieldText))
  }

  /** One more byte against a known word: `missed` if it differs, `done` if it is the last. */
  function MatchWord(p: Parser, word: string, c: byte, missed: HState, done: HState): Parser {
    var i := Inc(p.index);
    p.(index := i,
       headerState := if i >= |word| || c != word[i] as int then missed else if i == |word| - 1 then done
         else p.headerState)
  }

  /** A token byte `c` of a header name. */
  function FieldChar(p: Parser, c: byte): Option<Parser> {
    match p.headerState
    case General => Some(p)
    case C => Some(p.(index := Inc(p.index), headerState := if c == 111 then CO else General))
    case CO => Some(p.(index := Inc(p.index), headerState := if c == 110 then CON else General))
    case CON =>
      Some(p.(index := Inc(p.index),
              headerState := if c == 110 then MatchingConnection else if c == 116 then MatchingContentLength
                else General))
    case MatchingConnection => Some(MatchWord(p, "connection", c, General, Connection))
    case MatchingProxyConnection => Some(MatchWord(p, "proxy-connection", c, General, Connection))
    case MatchingContentLength => Some(MatchWord(p, "content-length", c, General, ContentLength))
    case MatchingTransferEncoding =>
      var q := MatchWord(p, "transfer-encoding", c, General, TransferEncoding);
      Some(if q.headerState.TransferEncoding? then q.(transferEncoding := true) else q)
    case MatchingUpgrade => Some(MatchWord(p, "upgrade", c, General, Upgrade))
    case Connection => Some(p.(headerState := General))
    case ContentLength => Some(p.(headerState := General))
    case TransferEncoding => Some(p.(headerState := General))
    case Upgrade => Some(p.(headerState := General))
    case _ => None
  }

  function Field(p: Parser, ch: byte): Turn {
    var c := TokenOf(ch);
    if c != 0 then
      match FieldChar(p, c)
      case Some(q) => To(q, HeaderField)
      case None => Fail(AssertionFailure)
    else if ch == COLON then Mark(p, AroundValue(HeaderValueDiscardWs), Close(HeaderFieldText))
    else Fail(InvalidHeaderToken)
  }

  // ----- header values

  /** The first byte of a value. */
  function ValueStart(p: Parser, ch: byte): Turn {
    var c, q := Lower(ch), p.(index := 0);
    match p.headerState
    case Upgrade => Started(q.(flags := q.flags.(upgrade := true)), General)
    case TransferEncoding => Started(q, if c == 99 then MatchingTeChunked else MatchingTeToken)
    case MatchingTeTokenStart => Started(q, MatchingTeTokenStart)
    case ContentLength =>
      if !IsDigit(ch) then Fail(InvalidContentLength)
      else if p.flags.contentLength then Fail(UnexpectedContentLength)
      else Started(q.(flags := q.flags.(contentLength := true), contentLength := ch - 48), ContentLengthNum)
    case ContentLengthWs => Started(q, ContentLengthWs)
    case Connection =>
      Started(q, if c == 107 then MatchingConnKeepAlive else if c == 99 then MatchingConnClose
                 else if c == 117 then MatchingConnUpgrade else MatchingConnToken)
    case MatchingConnTokenStart => Started(q, MatchingConnTokenStart)
    case _ => Started(q, General)
  }

  function Started(p: Parser, h: HState): Turn {
    Mark(p.(headerState := h), HeaderValue, Open(HeaderValueText))
  }

  /** The largest length to which another digit may be added. */
  const DECIMAL_LIMIT: nat := (ABSENT - 10) / 10

  /** A byte of a value other than CR and LF, in the states that look at it. */
  function ValueChar(p: Parser, ch: byte): Turn {
    var c := Lower(ch);
    match p.headerState
    case General => To(p, HeaderValue)
    case Connection => Fail(AssertionFailure)
    case TransferEncoding => Fail(AssertionFailure)
    case ContentLength => if ch == SPACE then To(p, HeaderValue) else LengthDigit(p, ch)
    case ContentLengthNum => if ch == SPACE then To(p.(headerState := ContentLengthWs), HeaderValue)
      else LengthDigit(p, ch)
    case ContentLengthWs => if ch == SPACE then To(p, HeaderValue) else Fail(InvalidContentLength)
    case MatchingTeTokenStart =>
      To(p.(headerState := if c == 99 then MatchingTeChunked else if StrictToken(c) then MatchingTeToken
                           else if c == SPACE || c == TAB then MatchingTeTokenStart else General), HeaderValue)
    case MatchingTeChunked => To(MatchWord(p, "chunked", c, MatchingTeToken, TeChunked), HeaderValue)
    case MatchingTeToken => To(if ch == COMMA then p.(headerState := MatchingTeTokenStart, index := 0)
                               else p, HeaderValue)
    case MatchingConnTokenStart =>
      To(p.(headerState := if c == 107 then MatchingConnKeepAlive else if c == 99 then MatchingConnClose
                           else if c == 117 then MatchingConnUpgrade else if StrictToken(c) then MatchingConnToken
                           else if c == SPACE || c == TAB then MatchingConnTokenStart else General), HeaderValue)
    case MatchingConnKeepAlive => To(MatchWord(p, "keep-alive", c, MatchingConnToken, ConnKeepAlive), HeaderValue)
    case MatchingConnClose => To(MatchWord(p, "close", c, MatchingConnToken, ConnClose), HeaderValue)
    case MatchingConnUpgrade => To(MatchWord(p, "upgrade", c, MatchingConnToken, ConnUpgrade), HeaderValue)
    case MatchingConnToken =>
      To(if ch == COMMA then p.(headerState := MatchingConnTokenStart, index := 0) else p, HeaderValue)
    case TeChunked => To(if ch != SPACE then p.(headerState := MatchingTeToken) else p, HeaderValue)
    case ConnKeepAlive => ConnectionEnd(p, ch)
    case ConnClose => ConnectionEnd(p, ch)
    case ConnUpgrade => ConnectionEnd(p, ch)
    case _ => To(p.(headerState := General), HeaderValue)
  }

  /** STRICT_TOKEN as a condition; a space is never a token character. */
  predicate StrictToken(c: byte) {
    TokenOf(c) != 0
  }

  function LengthDigit(p: Parser, ch: byte): Turn {
    if !IsDigit(ch) || DECIMAL_LIMIT < p.contentLength then Fail(InvalidContentLength)
    else To(p.(headerState := ContentLengthNum, contentLength := p.contentLength * 10 + (ch - 48)), HeaderValue)
  }

  function ConnectionEnd(p: Parser, ch: byte): Turn {
    if ch == COMMA then To(SetFlags(p).(headerState := MatchingConnTokenStart, index := 0), HeaderValue)
    else To(if ch != SPACE then p.(headerState := MatchingConnToken) else p, HeaderValue)
  }

  /** The flags a finished value sets. */
  function SetFlags(p: Parser): Parser {
    var f, h := p.flags, p.headerState;
    p.(flags := f.(keepAlive := f.keepAlive || h.ConnKeepAlive?, close := f.close || h.ConnClose?,
                   chunked := f.chunked || h.TeChunked?, connUpgrade := f.connUpgrade || h.ConnUpgrade?))
  }

  function Value(p: Parser, ch: byte): Turn {
    if ch == CR then Mark(p, AroundValue(HeaderAlmostDone), Close(HeaderValueText))
    else if ch == LF then Mark(p, AroundValue(HeaderValueLws), Close(HeaderValueText))
    else if !p.lenient && !IsHeaderChar(ch) then Fail(InvalidHeaderToken)
    else ValueChar(p, ch)
  }

  /** Between the colon and the next header: blanks, folded lines, empty values. */
  function BetweenValues(p: Parser, a: AroundState, ch: byte): Turn {
    match a
    case HeaderValueDiscardWs =>
      if ch == SPACE || ch == TAB then To(p, AroundValue(a))
      else if ch == CR then To(p, AroundValue(HeaderValueDiscardWsAlmostDone))
      else if ch == LF then To(p, AroundValue(HeaderValueDiscardLws))
      else ValueStart(p, ch)
    case HeaderValueStart => ValueStart(p, ch)
    case HeaderAlmostDone => if ch == LF then To(p, AroundValue(HeaderValueLws)) else Fail(LfExpected)
    case HeaderValueLws =>
      if ch == SPACE || ch == TAB then
        ValueStart(if p.headerState.ContentLengthNum? then p.(headerState := ContentLengthWs) else p, ch)
      else FieldStart(SetFlags(p), ch)
    case HeaderValueDiscardWsAlmostDone => Expect(p, ch == LF, AroundValue(HeaderValueDiscardLws))
    case HeaderValueDiscardLws =>
      if ch == SPACE || ch == TAB then To(p, AroundValue(HeaderValueDiscardWs))
      else if p.headerState.ContentLength? then Fail(InvalidContentLength)
      else Before([Empty(HeaderValueText)], FieldStart(SetFlags(p), ch))
  }

  /** The same turn, with more done to the marks before. */
  function Before(ops: seq<Op>, t: Turn): Turn {
    match t
    case Go(p, more, notes) => Go(p, ops + more, notes)
    case Quit(p, more, notes) => Quit(p, ops + more, notes)
    case Failing(e, more, notes) => Failing(e, ops + more, notes)
  }

  // ----- the end of the headers

  /** The upgrade field, set before the headers-complete callback. */
  function Upgrading(p: Parser): Parser {
    p.(upgrade := if p.flags.upgrade && p.flags.connUpgrade then p.kind == HttpRequest || p.statusCode == 101
                  else p.verb == CONNECT)
  }

  /** s_headers_almost_done. */
  function AlmostDone(p: Parser, ch: byte): Turn {
    if ch != LF then Fail(Strict)
    else if p.flags.trailing then Complete(p, [], [ChunkComplete])
    else if p.transferEncoding && p.flags.contentLength &&
      (!p.lenient || p.flags.chunked) then Fail(UnexpectedContentLength)
    else AllDone(Upgrading(p), ch, [HeadersComplete])
  }

  /** s_headers_done: whether there is a body, and how it is framed. */
  function AllDone(p: Parser, ch: byte, notes: seq<Event>): Turn {
    if ch != LF then Fail(Strict) else
    var q := p.(nread := 0);
    var hasBody := q.flags.chunked || (q.contentLength > 0 && q.contentLength != ABSENT);
    if q.upgrade && (q.verb == CONNECT || q.flags.skipBody || !hasBody) then
      Quit(q.(state := NewMessage(q)), [], notes + [MessageComplete])
    else if q.flags.skipBody then Go(q.(state := NewMessage(q)), [], notes + [MessageComplete])
    else if q.flags.chunked then Go(q.(state := InChunk(ChunkSizeStart)), [], notes)
    else if q.transferEncoding then
      if q.kind == HttpRequest && !q.lenient then Failing(InvalidTransferEncoding, [], notes)
        else Go(q.(state := BodyIdentityEof), [], notes)
    else if q.contentLength == 0 then Go(q.(state := NewMessage(q)), [], notes + [MessageComplete])
    else if q.contentLength != ABSENT then Go(q.(state := BodyIdentity), [], notes)
    else if !NeedsEof(q) then Go(q.(state := NewMessage(q)), [], notes + [MessageComplete])
    else Go(q.(state := BodyIdentityEof), [], notes)
  }

  /** s_message_done. */
  function Complete(p: Parser, ops: seq<Op>, notes: seq<Event>): Turn {
    var q := p.(state := NewMessage(p));
    if q.upgrade then Quit(q, ops, notes + [MessageComplete]) else Go(q, ops, notes + [MessageComplete])
  }

  // ----- chunks and bodies

  const HEX_LIMIT: nat := (ABSENT - 16) / 16

  function ToChunk(p: Parser, c: ChunkState): Turn {
    To(p, InChunk(c))
  }

  function Chunk(p: Parser, c: ChunkState, ch: byte): Turn {
    if !p.flags.chunked then Fail(AssertionFailure) else
    match c
    case ChunkSizeStart =>
      if p.nread != 1 then Fail(AssertionFailure)
      else if Unhex(ch) == -1 then Fail(InvalidChunkSize)
      else ToChunk(p.(contentLength := Unhex(ch)), ChunkSize)
    case ChunkSize =>
      if ch == CR then ToChunk(p, ChunkSizeAlmostDone)
      else if Unhex(ch) == -1 then
        if ch == 59 || ch == SPACE then ToChunk(p, ChunkParameters) else Fail(InvalidChunkSize)
      else if HEX_LIMIT < p.contentLength then Fail(InvalidContentLength)
      else ToChunk(p.(contentLength := p.contentLength * 16 + Unhex(ch)), ChunkSize)
    case ChunkParameters => ToChunk(p, if ch == CR then ChunkSizeAlmostDone else ChunkParameters)
    case ChunkSizeAlmostDone =>
      if ch != LF then Fail(Strict)
      else
        var q := p.(nread := 0);
        Go(if q.contentLength == 0 then q.(flags := q.flags.(trailing := true), state := Ending(HeaderFieldStart))
           else q.(state := InChunk(ChunkData)),
           [], [ChunkHeader(q.contentLength)])
    case ChunkData =>
      if p.contentLength == 0 || p.contentLength == ABSENT then Fail(AssertionFailure)
      else
        Mark(p.(contentLength := p.contentLength - 1),
             InChunk(if p.contentLength == 1 then ChunkDataAlmostDone else ChunkData), Open(BodyText))
    case ChunkDataAlmostDone =>
      if p.contentLength != 0 then Fail(AssertionFailure)
      else if ch != CR then Fail(Strict)
      else Mark(p, InChunk(ChunkDataDone), Close(BodyText))
    case ChunkDataDone =>
      if ch != LF then Fail(Strict) else Go(p.(nread := 0, state := InChunk(ChunkSizeStart)), [], [ChunkComplete])
  }

  function Body(p: Parser, ch: byte): Turn {
    if p.state.BodyIdentityEof? then Mark(p, BodyIdentityEof, Open(BodyText))
    else if p.contentLength == 0 || p.contentLength == ABSENT then Fail(AssertionFailure)
    else if p.contentLength == 1 then Complete(p.(contentLength := 0), [Finish(BodyText)], [])
    else Mark(p.(contentLength := p.contentLength - 1), BodyIdentity, Open(BodyText))
  }

  // ----- the switch

  function StartEither(p: Parser, ch: byte): Turn {
    if ch == CR || ch == LF then To(p, StartReqOrRes)
    else if ch == 72 then Go(Fresh(p).(state := ResOrRespH), [], [MessageBegin])
    else StartRequest(Fresh(p).(kind := HttpRequest), ch)
  }

  function HeadOrHttp(p: Parser, ch: byte): Turn {
    if ch == 84 then ToRes(p.(kind := HttpResponse), ResHT)
    else if ch == 69 then ToReq(p.(kind := HttpRequest, verb := HEAD, index := 2), ReqMethod)
    else Fail(InvalidConstant)
  }

  function Final(p: Parser, e: EndState, ch: byte): Turn {
    match e
    case HeaderFieldStart => FieldStart(p, ch)
    case HeadersAlmostDone => AlmostDone(p, ch)
    case HeadersDone => AllDone(p, ch, [])
    case MessageDone => Complete(p, [], [])
  }

  function Switch(p: Parser, ch: byte): Turn {
    match p.state
    case Dead => if ch == CR || ch == LF then To(p, Dead) else Fail(ClosedConnection)
    case StartReqOrRes => StartEither(p, ch)
    case ResOrRespH => HeadOrHttp(p, ch)
    case InResponse(r) => ResponseLine(p, r, ch)
    case InRequest(q) => RequestLine(p, q, ch)
    case InUrl(u) => Url(p, u, ch)
    case HeaderField => Field(p, ch)
    case HeaderValue => Value(p, ch)
    case AroundValue(a) => BetweenValues(p, a, ch)
    case Ending(e) => Final(p, e, ch)
    case InChunk(c) => Chunk(p, c, ch)
    case BodyIdentity => Body(p, ch)
    case BodyIdentityEof => Body(p, ch)
  }

  /** COUNT_HEADER_SIZE(1), and the switch. */
  function Byte(p: Parser, ch: byte): Turn {
    if !ParsingHeader(p.state) then Switch(p, ch)
    else if p.nread + 1 > MAX_HEADER_SIZE then Fail(HeaderOverflow)
    else Switch(p.(nread := p.nread + 1), ch)
  }
}
