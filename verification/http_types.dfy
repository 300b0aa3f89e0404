/** The parser's states, its record, and the character classes of strict mode. */
module HttpTypes {
  import opened Bytes

  datatype Kind = HeaderFieldText | HeaderValueText | UrlText | BodyText | StatusText

  /** What the callbacks are told. The chunk header callback finds the chunk's length in
      content_length, so the length is part of the event. */
  datatype Event =
    | Data(kind: Kind, bytes: Bytes)
    | MessageBegin | HeadersComplete | MessageComplete | ChunkHeader(size: nat) | ChunkComplete

  datatype Errno =
    | HeaderOverflow | ClosedConnection | InvalidConstant | InvalidVersion | InvalidStatus | InvalidMethod | InvalidUrl
    | LfExpected | InvalidHeaderToken | InvalidContentLength | UnexpectedContentLength | InvalidChunkSize | Strict
    | InvalidTransferEncoding | InvalidEofState
    /** One of the code's own assertions would fail. */
    | AssertionFailure

  // The states, grouped by what is being read; the names are those of the code's enum.

  datatype ResState =
    | StartRes | ResH | ResHT | ResHTT | ResHTTP | ResHttpMajor | ResHttpDot | ResHttpMinor | ResHttpEnd
    | ResFirstStatusCode | ResStatusCode | ResStatusStart | ResStatus | ResLineAlmostDone

  datatype ReqState =
    | StartReq | ReqMethod | ReqSpacesBeforeUrl | ReqHttpStart | ReqHttpH | ReqHttpHT | ReqHttpHTT | ReqHttpHTTP
    | ReqHttpI | ReqHttpIC | ReqHttpMajor | ReqHttpDot | ReqHttpMinor | ReqHttpEnd | ReqLineAlmostDone

  /** The states parse_url_char moves between; `UrlSpaces` is s_req_spaces_before_url. */
  datatype UrlState =
    | UrlSpaces | ReqSchema | ReqSchemaSlash | ReqSchemaSlashSlash | ReqServerStart | ReqServer | ReqServerWithAt
    | ReqPath | ReqQueryStringStart | ReqQueryString | ReqFragmentStart | ReqFragment

  datatype AroundState =
    | HeaderValueDiscardWs | HeaderValueDiscardWsAlmostDone | HeaderValueDiscardLws | HeaderValueStart
    | HeaderValueLws | HeaderAlmostDone

  datatype EndState = HeaderFieldStart | HeadersAlmostDone | HeadersDone | MessageDone

  datatype ChunkState =
    | ChunkSizeStart | ChunkSize | ChunkParameters | ChunkSizeAlmostDone
    | ChunkData | ChunkDataAlmostDone | ChunkDataDone

  datatype State =
    | Dead | StartReqOrRes | ResOrRespH
    | InResponse(r: ResState) | InRequest(q: ReqState) | InUrl(u: UrlState)
    | HeaderField | HeaderValue | AroundValue(a: AroundState) | Ending(e: EndState)
    | InChunk(c: ChunkState) | BodyIdentity | BodyIdentityEof

  datatype HState =
    | General | C | CO | CON
    | MatchingConnection | MatchingProxyConnection | MatchingContentLength | MatchingTransferEncoding | MatchingUpgrade
    | Connection | ContentLength | ContentLengthNum | ContentLengthWs | TransferEncoding | Upgrade
    | MatchingTeTokenStart | MatchingTeChunked | MatchingTeToken
    | MatchingConnTokenStart | MatchingConnKeepAlive | MatchingConnClose | MatchingConnUpgrade | MatchingConnToken
    | TeChunked | ConnKeepAlive | ConnClose | ConnUpgrade

  datatype Method =
    | DELETE | GET | HEAD | POST | PUT | CONNECT | OPTIONS | TRACE | COPY | LOCK | MKCOL | MOVE | PROPFIND | PROPPATCH
    | SEARCH | UNLOCK | BIND | REBIND | UNBIND | ACL | REPORT | MKACTIVITY | CHECKOUT | MERGE | MSEARCH | NOTIFY
    | SUBSCRIBE | UNSUBSCRIBE | PATCH | PURGE | MKCALENDAR | LINK | UNLINK | SOURCE

  function MethodName(m: Method): (name: string)
    ensures 3 <= |name| <= 11
  {
    match m
    case DELETE => "DELETE" case GET => "GET" case HEAD => "HEAD" case POST => "POST" case PUT => "PUT"
    case CONNECT => "CONNECT" case OPTIONS => "OPTIONS" case TRACE => "TRACE" case COPY => "COPY" case LOCK => "LOCK"
    case MKCOL => "MKCOL" case MOVE => "MOVE" case PROPFIND => "PROPFIND" case PROPPATCH => "PROPPATCH"
    case SEARCH => "SEARCH" case UNLOCK => "UNLOCK" case BIND => "BIND" case REBIND => "REBIND" case UNBIND => "UNBIND"
    case ACL => "ACL" case REPORT => "REPORT" case MKACTIVITY => "MKACTIVITY" case CHECKOUT => "CHECKOUT"
    case MERGE => "MERGE" case MSEARCH => "M-SEARCH" case NOTIFY => "NOTIFY" case SUBSCRIBE => "SUBSCRIBE"
    case UNSUBSCRIBE => "UNSUBSCRIBE" case PATCH => "PATCH" case PURGE => "PURGE" case MKCALENDAR => "MKCALENDAR"
    case LINK => "LINK" case UNLINK => "UNLINK" case SOURCE => "SOURCE"
  }

  datatype Type = HttpRequest | HttpResponse | HttpBoth

  datatype Flags = Flags(chunked: bool, keepAlive: bool, close: bool, connUpgrade: bool, trailing: bool, upgrade: bool,
                         skipBody: bool, contentLength: bool)

  const NO_FLAGS := Flags(false, false, false, false, false, false, false, false)

  /** ULLONG_MAX, which stands for "no Content-Length". */
  const ABSENT: nat := 0xffff_ffff_ffff_ffff
  const MAX_HEADER_SIZE: nat := 80 * 1024

  /** The fields of http_parser. `transferEncoding` is the one bit of extra_flags in use. */
  datatype Parser = Parser(
    kind: Type, state: State, flags: Flags, transferEncoding: bool, headerState: HState, index: nat, lenient: bool,
    nread: nat, contentLength: nat, httpMajor: nat, httpMinor: nat, statusCode: nat, verb: Method, upgrade: bool)

  /** http_parser_init, with the lenient bit as the caller then sets it. */
  function InitialParser(kind: Type, lenient: bool): Parser {
    Parser(kind,
           match kind
           case HttpRequest => InRequest(StartReq)
           case HttpResponse => InResponse(StartRes)
           case HttpBoth => StartReqOrRes,
           NO_FLAGS, false, General, 0, lenient, 0, 0, 0, 0, 0, DELETE, false)
  }

  /** PARSING_HEADER. */
  predicate ParsingHeader(s: State) {
    match s
    case InChunk(c) => !(c.ChunkData? || c.ChunkDataAlmostDone? || c.ChunkDataDone?)
    case Ending(e) => !e.MessageDone?
    case _ => !s.BodyIdentity? && !s.BodyIdentityEof?
  }

  // ----- characters

  /** LOWER: sets bit 5. */
  function Lower(c: byte): byte {
    if (c / 32) % 2 == 0 then c + 32 else c
  }

  predicate IsAlpha(c: byte) {
    97 <= Lower(c) <= 122
  }

  predicate IsAlphaNum(c: byte) {
    IsAlpha(c) || IsDigit(c)
  }

  predicate IsHex(c: byte) {
    IsDigit(c) || 97 <= Lower(c) <= 102
  }

  /** unhex: the value of a hexadecimal digit, or -1. The table of 256 entries has only 128
      initialisers, so its other half is 0. */
  function Unhex(c: byte): (v: int)
    ensures -1 <= v < 16 && (v >= 0 <==> IsHex(c) || c >= 128) && (c >= 128 ==> v == 0)
  {
    if c >= 128 then 0
    else if IsDigit(c) then c - 48 else if 65 <= c <= 70 then c - 55 else if 97 <= c <= 102 then c - 87 else -1
  }

  /** TOKEN: 0 for a byte that is no token character, else the byte in lower case. */
  function TokenOf(c: byte): byte {
    if 65 <= c <= 90 then c + 32
    else if c in {33, 35, 36, 37, 38, 39, 42, 43, 45, 46, 94, 95, 96, 124, 126} || IsDigit(c) || 97 <= c <= 122 then c
    else 0
  }

  /** IS_HEADER_CHAR. */
  predicate IsHeaderChar(c: byte) {
    c == CR || c == LF || c == TAB || (c > 31 && c != 127)
  }

  /** normal_url_char. */
  predicate IsUrlChar(c: byte) {
    33 <= c <= 126 && c != 35 && c != 63
  }

  predicate IsUserinfoChar(c: byte) {
    IsAlphaNum(c) || c in {45, 95, 46, 33, 126, 42, 39, 40, 41} || c in {37, 59, 58, 38, 61, 43, 36, 44}
  }

  predicate IsHostChar(c: byte) {
    IsAlphaNum(c) || c == 46 || c == 45
  }

  /** parse_url_char; None stands for s_dead. */
  function ParseUrlChar(s: UrlState, ch: byte): Option<UrlState> {
    if ch in {32, 13, 10, 9, 12} then None else
    match s
    case UrlSpaces => if ch == 47 || ch == 42 then Some(ReqPath) else if IsAlpha(ch) then Some(ReqSchema) else None
    case ReqSchema => if IsAlpha(ch) then Some(s) else if ch == 58 then Some(ReqSchemaSlash) else None
    case ReqSchemaSlash => if ch == 47 then Some(ReqSchemaSlashSlash) else None
    case ReqSchemaSlashSlash => if ch == 47 then Some(ReqServerStart) else None
    case ReqServerWithAt => if ch == 64 then None else ServerChar(ch)
    case ReqServerStart | ReqServer => ServerChar(ch)
    case ReqPath =>
      if IsUrlChar(ch) then Some(s) else if ch == 63 then Some(ReqQueryStringStart)
      else if ch == 35 then Some(ReqFragmentStart) else None
    case ReqQueryStringStart | ReqQueryString =>
      if IsUrlChar(ch) || ch == 63 then Some(ReqQueryString) else if ch == 35 then Some(ReqFragmentStart) else None
    case ReqFragmentStart => if IsUrlChar(ch) || ch == 63 then Some(ReqFragment) else if ch == 35 then Some(s) else None
    case ReqFragment => if IsUrlChar(ch) || ch == 63 || ch == 35 then Some(s) else None
  }

  function ServerChar(ch: byte): Option<UrlState> {
    if ch == 47 then Some(ReqPath)
    else if ch == 63 then Some(ReqQueryStringStart)
    else if ch == 64 then Some(ReqServerWithAt)
    else if IsUserinfoChar(ch) || ch == 91 || ch == 93 then Some(ReqServer)
    else None
  }
}
