/** The first line of a message: the request line and the status line, as a sender writes them. */
module HttpStarts {
  import opened Bytes
  import opened Decimals
  import opened HttpTypes
  import opened HttpTurn
  import opened HttpRun
  import opened HttpCut
  import opened HttpExecute
  import opened HttpChunks
  import opened HttpLengths
  import opened HttpNames
  import opened HttpValues
  import opened HttpHeads
  import F = HttpFields
  import C = HttpCompose

  // ----- the method

  /** The bytes are the method's name. */
  ghost predicate Names(text: Bytes, m: Method) {
    |text| == |MethodName(m)| && forall k :: 0 <= k < |text| ==> text[k] == MethodName(m)[k] as int
  }

  /** The method that another one stands for until its letter at this place. */
  function StandIn(m: Method): Option<(Method, nat)> {
    match m
    case PUT => Some((POST, 1)) case PATCH => Some((POST, 1)) case PROPFIND => Some((POST, 1))
    case PURGE => Some((PUT, 2)) case CHECKOUT => Some((CONNECT, 1)) case COPY => Some((CONNECT, 2))
    case MOVE => Some((MKCOL, 1)) case MERGE => Some((MKCOL, 1)) case MSEARCH => Some((MKCOL, 1))
    case MKACTIVITY => Some((MKCOL, 2)) case MKCALENDAR => Some((MKCOL, 3))
    case SEARCH => Some((SUBSCRIBE, 1)) case SOURCE => Some((SUBSCRIBE, 1)) case REBIND => Some((REPORT, 2))
    case PROPPATCH => Some((PROPFIND, 4)) case LINK => Some((LOCK, 1))
    case UNSUBSCRIBE => Some((UNLOCK, 2)) case UNBIND => Some((UNLOCK, 2)) case UNLINK => Some((UNLOCK, 3))
    case _ => None
  }

  /** The method the parser takes it for after `k` letters. */
  function Guess(m: Method, k: nat): Method {
    match StandIn(m)
    case Some((b, i)) => if k > i then m
      else (match StandIn(b) case Some((c, j)) => if k > j then b else c case None => b)
    case None => m
  }

  lemma FirstGuess(m: Method)
    ensures FirstMethod(MethodName(m)[0] as int) == Some(Guess(m, 1))
  {
    hide MethodName, Guess, FirstMethod;
    match m
    case DELETE | GET | HEAD | POST | PUT | CONNECT | OPTIONS | TRACE => FirstEarly(m);
    case COPY | LOCK | MKCOL | MOVE | PROPFIND | PROPPATCH | SEARCH | UNLOCK | BIND | REBIND => FirstMiddle(m);
    case _ => FirstLate(m);
  }

  lemma FirstEarly(m: Method)
    requires m in {DELETE, GET, HEAD, POST, PUT, CONNECT, OPTIONS, TRACE}
    ensures FirstMethod(MethodName(m)[0] as int) == Some(Guess(m, 1))
  {
  }

  lemma FirstMiddle(m: Method)
    requires m in {COPY, LOCK, MKCOL, MOVE, PROPFIND, PROPPATCH, SEARCH, UNLOCK, BIND, REBIND}
    ensures FirstMethod(MethodName(m)[0] as int) == Some(Guess(m, 1))
  {
  }

  lemma FirstLate(m: Method)
    requires m !in {DELETE, GET, HEAD, POST, PUT, CONNECT, OPTIONS, TRACE, COPY, LOCK, MKCOL, MOVE, PROPFIND,
                    PROPPATCH, SEARCH, UNLOCK, BIND, REBIND}
    ensures FirstMethod(MethodName(m)[0] as int) == Some(Guess(m, 1))
  {
  }

  /** The letter is the guess's own, or replaces the guess by the next. */
  ghost predicate Turns(g: Method, k: nat, c: int, next: Method) {
    0 <= c < 256 &&
    if next == g then k < |MethodName(g)| && MethodName(g)[k] as int == c
    else
      k <= |MethodName(g)| && (k == |MethodName(g)| || MethodName(g)[k] as int != c) &&
      Switched(g, k, c) == Some(next)
  }

  ghost predicate GuessGoesOn(m: Method, k: nat)
    requires 0 < k < |MethodName(m)|
  {
    Turns(Guess(m, k), k, MethodName(m)[k] as int, Guess(m, k + 1))
  }

  lemma PostGuesses(m: Method, k: nat)
    requires 0 < k < |MethodName(m)| && m in {PUT, PATCH, PROPFIND} && k <= StandIn(m).value.1
    ensures GuessGoesOn(m, k)
  {
  }

  lemma PutGuesses(m: Method, k: nat)
    requires 0 < k < |MethodName(m)| && m in {PURGE, PROPPATCH} && k <= StandIn(m).value.1
    ensures GuessGoesOn(m, k)
  {
  }

  lemma ConnectGuesses(m: Method, k: nat)
    requires 0 < k < |MethodName(m)| && m in {CHECKOUT, COPY} && k <= StandIn(m).value.1
    ensures GuessGoesOn(m, k)
  {
  }

  lemma MakeGuesses(m: Method, k: nat)
    requires 0 < k < |MethodName(m)| && m in {MOVE, MERGE, MSEARCH} && k <= StandIn(m).value.1
    ensures GuessGoesOn(m, k)
  {
  }

  lemma MakeActivityGuesses(m: Method, k: nat)
    requires 0 < k < |MethodName(m)| && m == MKACTIVITY && k <= StandIn(m).value.1
    ensures GuessGoesOn(m, k)
  {
  }

  lemma MakeCalendarGuesses(m: Method, k: nat)
    requires 0 < k < |MethodName(m)| && m == MKCALENDAR && k <= StandIn(m).value.1
    ensures GuessGoesOn(m, k)
  {
  }

  lemma SubscribeGuesses(m: Method, k: nat)
    requires 0 < k < |MethodName(m)| && m in {SEARCH, SOURCE} && k <= StandIn(m).value.1
    ensures GuessGoesOn(m, k)
  {
  }

  lemma ReportGuesses(m: Method, k: nat)
    requires 0 < k < |MethodName(m)| && m in {REBIND, LINK} && k <= StandIn(m).value.1
    ensures GuessGoesOn(m, k)
  {
  }

  lemma UnlockGuesses(m: Method, k: nat)
    requires 0 < k < |MethodName(m)| && m in {UNSUBSCRIBE, UNBIND, UNLINK} && k <= StandIn(m).value.1
    ensures GuessGoesOn(m, k)
  {
  }

  lemma NextGuess(m: Method, k: nat)
    requires 0 < k < |MethodName(m)|
    ensures GuessGoesOn(m, k)
  {
    NoSpaceInName(m, k);
    hide MethodName, Switched;
    if StandIn(m).Some? && k <= StandIn(m).value.1 {
      hide GuessGoesOn, Guess;
      match m
      case PUT | PATCH | PROPFIND => PostGuesses(m, k);
      case PURGE | PROPPATCH => PutGuesses(m, k);
      case CHECKOUT | COPY => ConnectGuesses(m, k);
      case MOVE | MERGE | MSEARCH => MakeGuesses(m, k);
      case MKACTIVITY => MakeActivityGuesses(m, k);
      case MKCALENDAR => MakeCalendarGuesses(m, k);
      case SEARCH | SOURCE => SubscribeGuesses(m, k);
      case REBIND | LINK => ReportGuesses(m, k);
      case UNSUBSCRIBE | UNBIND | UNLINK => UnlockGuesses(m, k);
      case _ =>
    }
  }

  lemma LastGuess(m: Method)
    ensures Guess(m, |MethodName(m)|) == m
  {
  }

  lemma NoSpaceInName(m: Method, k: nat)
    requires k < |MethodName(m)|
    ensures MethodName(m)[k] as int !in {0, 32} && MethodName(m)[k] as int < 256
  {
    hide MethodName;
    match m
    case DELETE | GET | HEAD | POST | PUT | CONNECT | OPTIONS | TRACE => NoSpaceEarly(m, k);
    case COPY | LOCK | MKCOL | MOVE | PROPFIND | PROPPATCH | SEARCH | UNLOCK | BIND | REBIND => NoSpaceMiddle(m, k);
    case _ => NoSpaceLate(m, k);
  }

  lemma NoSpaceEarly(m: Method, k: nat)
    requires k < |MethodName(m)| && m in {DELETE, GET, HEAD, POST, PUT, CONNECT, OPTIONS, TRACE}
    ensures MethodName(m)[k] as int !in {0, 32} && MethodName(m)[k] as int < 256
  {
  }

  lemma NoSpaceMiddle(m: Method, k: nat)
    requires k < |MethodName(m)| &&
             m in {COPY, LOCK, MKCOL, MOVE, PROPFIND, PROPPATCH, SEARCH, UNLOCK, BIND, REBIND}
    ensures MethodName(m)[k] as int !in {0, 32} && MethodName(m)[k] as int < 256
  {
  }

  lemma NoSpaceLate(m: Method, k: nat)
    requires k < |MethodName(m)| &&
             m !in {DELETE, GET, HEAD, POST, PUT, CONNECT, OPTIONS, TRACE, COPY, LOCK, MKCOL, MOVE, PROPFIND,
                    PROPPATCH, SEARCH, UNLOCK, BIND, REBIND}
    ensures MethodName(m)[k] as int !in {0, 32} && MethodName(m)[k] as int < 256
  {
  }

  /** The parser after `k` letters of the method. */
  function MethodAt(p: Parser, m: Method, k: nat): Parser {
    Fresh(p).(state := InRequest(ReqMethod), verb := Guess(m, k), index := k, nread := p.nread + k)
  }

  lemma MethodFirst(p: Parser, m: Method, ch: byte)
    requires p.state == InRequest(StartReq) && p.nread < MAX_HEADER_SIZE && ch == MethodName(m)[0] as int
    ensures Byte(p, ch) == Go(MethodAt(p, m, 1), [], [MessageBegin])
  {
    FirstGuess(m);
    hide MethodName, Guess;
    assert FirstMethod(ch).Some? ==> ch != CR && ch != LF;
  }

  lemma MethodNext(p: Parser, m: Method, k: nat, ch: byte)
    requires 0 < k < |MethodName(m)| && p.nread + k < MAX_HEADER_SIZE && ch == MethodName(m)[k] as int
    ensures Byte(MethodAt(p, m, k), ch) == Go(MethodAt(p, m, k + 1), [], [])
  {
    hide *;
    NextGuess(m, k);
    NoSpaceInName(m, k);
    var q := MethodAt(p, m, k);
    MethodAtIs(p, m, k);
    MethodAtIs(p, m, k + 1);
    assert Turns(Guess(m, k), k, ch, Guess(m, k + 1)) by { GuessTurns(m, k); }
    MethodTurn(q, ch, Guess(m, k + 1));
  }

  lemma MethodAtIs(p: Parser, m: Method, k: nat)
    ensures var q := MethodAt(p, m, k);
      q.state == InRequest(ReqMethod) && q.verb == Guess(m, k) && q.index == k && q.nread == p.nread + k &&
      MethodAt(p, m, k + 1) == q.(verb := Guess(m, k + 1), index := k + 1, nread := q.nread + 1)
  {
    hide Guess, Fresh;
  }

  lemma GuessTurns(m: Method, k: nat)
    requires 0 < k < |MethodName(m)| && GuessGoesOn(m, k)
    ensures Turns(Guess(m, k), k, MethodName(m)[k] as int, Guess(m, k + 1))
  {
    hide Turns, MethodName, Guess;
  }

  lemma MethodTurn(q: Parser, ch: byte, next: Method)
    requires q.state == InRequest(ReqMethod) && q.nread < MAX_HEADER_SIZE && q.index < 31 && ch != 0 && ch != 32
    requires Turns(q.verb, q.index, ch, next)
    ensures Byte(q, ch) == Go(q.(verb := next, index := q.index + 1, nread := q.nread + 1), [], [])
  {
    hide MethodName, Switched, MethodChar, Turns, Byte;
    ByteOfMethod(q, ch);
    CharOfMethod(q.(nread := q.nread + 1), ch, next);
  }

  lemma ByteOfMethod(q: Parser, ch: byte)
    requires q.state == InRequest(ReqMethod) && q.nread < MAX_HEADER_SIZE
    ensures Byte(q, ch) == MethodChar(q.(nread := q.nread + 1), ch)
  {
    hide MethodChar;
  }

  lemma CharOfMethod(q: Parser, ch: byte, next: Method)
    requires q.state == InRequest(ReqMethod) && q.index < 31 && ch != 0 && ch != 32 && Turns(q.verb, q.index, ch, next)
    ensures MethodChar(q, ch) == Go(q.(verb := next, index := q.index + 1), [], [])
  {
    hide MethodName, Switched;
  }

  lemma MethodSpace(p: Parser, m: Method)
    requires p.nread + |MethodName(m)| < MAX_HEADER_SIZE
    ensures var k := |MethodName(m)|;
      Byte(MethodAt(p, m, k), SPACE) ==
      Go(Fresh(p).(state := InRequest(ReqSpacesBeforeUrl), verb := m, index := k + 1, nread := p.nread + k + 1), [], [])
  {
    LastGuess(m);
    hide MethodName, Guess, Switched, Fresh;
  }

  lemma {:induction false} MethodRuns(p: Parser, m: Method, text: Bytes, k: nat)
    requires p.state == InRequest(StartReq) && Names(text, m) && 1 <= k <= |text| && p.nread + k <= MAX_HEADER_SIZE
    ensures RunFrom(Running(p, None, [], 0), text[..k]) == Running(MethodAt(p, m, k), None, [MessageBegin], k)
    decreases k
  {
    hide RunFrom, Next, MethodAt, Byte, MethodName;
    var r0 := Running(p, None, [], 0);
    RunLast(r0, text[..k]);
    assert text[..k][..k - 1] == text[..k - 1];
    if k == 1 {
      assert text[..0] == [] && text[..1] == [text[0]];
      NothingRun(r0);
      MethodFirst(p, m, text[0]);
      Quietly(p, [], 0, text[0], MethodAt(p, m, 1), [MessageBegin]);
      assert [] + [MessageBegin] == [MessageBegin];
    } else {
      MethodRuns(p, m, text, k - 1);
      MethodNext(p, m, k - 1, text[k - 1]);
      Quietly(MethodAt(p, m, k - 1), [MessageBegin], k - 1, text[k - 1], MethodAt(p, m, k), []);
      assert [MessageBegin] + [] == [MessageBegin];
    }
  }

  // ----- spaces

  /** States that pass over spaces. */
  predicate Passes(s: State) {
    s == InRequest(ReqSpacesBeforeUrl) || s == InRequest(ReqHttpStart) || s == InResponse(ResFirstStatusCode)
  }

  lemma {:induction false} SpacesPassed(q: Parser, spaces: Bytes, ev: seq<Event>, n: nat)
    requires Passes(q.state) && Spaces(spaces) && q.nread + |spaces| <= MAX_HEADER_SIZE
    ensures RunFrom(Running(q, None, ev, n), spaces) ==
            Running(q.(nread := q.nread + |spaces|), None, ev, n + |spaces|)
    decreases |spaces|
  {
    hide RunFrom, Next, Byte;
    var r0 := Running(q, None, ev, n);
    if spaces == [] {
      NothingRun(r0);
    } else {
      var k := |spaces| - 1;
      RunLast(r0, spaces);
      SpacesPassed(q, spaces[..k], ev, n);
      SpacePassed(q.(nread := q.nread + k));
      Quietly(q.(nread := q.nread + k), ev, n + k, SPACE, q.(nread := q.nread + k + 1), []);
      assert ev + [] == ev;
    }
  }

  lemma SpacePassed(q: Parser)
    requires Passes(q.state) && q.nread < MAX_HEADER_SIZE
    ensures Byte(q, SPACE) == Go(q.(nread := q.nread + 1), [], [])
  {
  }

  // ----- the URL

  /** Where the URL automaton starts. */
  function UrlFrom(p: Parser): UrlState {
    F.StartOf(p.verb == CONNECT)
  }

  ghost function UrlState(p: Parser, url: Bytes, k: nat): Option<HttpTypes.UrlState>
    requires k <= |url|
  {
    C.Run(ParseUrlChar, Some(UrlFrom(p)), url[..k])
  }

  /** The parser after `k` bytes of the URL. */
  ghost function UrlAt(p: Parser, url: Bytes, k: nat): Parser
    requires k <= |url| && UrlState(p, url, k).Some?
  {
    p.(state := InUrl(UrlState(p, url, k).value), nread := p.nread + k)
  }

  lemma UrlNext(p: Parser, url: Bytes, k: nat)
    requires k < |url| && UrlState(p, url, |url|).Some?
    ensures UrlState(p, url, k).Some? && UrlState(p, url, k + 1).Some?
    ensures ParseUrlChar(UrlState(p, url, k).value, url[k]) == UrlState(p, url, k + 1)
  {
    UrlPrefix(p, url, k);
    UrlPrefix(p, url, k + 1);
    C.RunNext(ParseUrlChar, F.OuterField, Some(UrlFrom(p)), url, k);
  }

  lemma UrlPrefix(p: Parser, url: Bytes, k: nat)
    requires k <= |url| && UrlState(p, url, |url|).Some?
    ensures UrlState(p, url, k).Some?
  {
    hide ParseUrlChar;
    assert url[..|url|] == url[..k] + url[k..];
    C.RunMore(ParseUrlChar, F.OuterField, Some(UrlFrom(p)), url[..k], url[k..]);
    if UrlState(p, url, k).None? { C.Refused(ParseUrlChar, url[k..]); }
  }

  lemma NoUrlBreak(u: HttpTypes.UrlState, ch: byte)
    requires ParseUrlChar(u, ch).Some?
    ensures ch != SPACE && ch != CR && ch != LF
  {
  }

  lemma UrlFirstTurn(p: Parser, url: Bytes)
    requires p.state == InRequest(ReqSpacesBeforeUrl) && url != [] && UrlState(p, url, |url|).Some?
    requires p.nread < MAX_HEADER_SIZE
    ensures UrlState(p, url, 1).Some?
    ensures Byte(p, url[0]) == Go(UrlAt(p, url, 1), [Open(UrlText)], [])
  {
    UrlNext(p, url, 0);
    assert url[..0] == [];
    NoUrlBreak(UrlFrom(p), url[0]);
    hide ParseUrlChar, C.Run;
  }

  lemma UrlTurn(p: Parser, url: Bytes, k: nat)
    requires k < |url| && UrlState(p, url, |url|).Some? && p.nread + k < MAX_HEADER_SIZE
    ensures UrlState(p, url, k).Some? && UrlState(p, url, k + 1).Some?
    ensures Byte(UrlAt(p, url, k), url[k]) == Go(UrlAt(p, url, k + 1), [], [])
  {
    UrlNext(p, url, k);
    NoUrlBreak(UrlState(p, url, k).value, url[k]);
    hide ParseUrlChar, UrlState;
  }

  lemma {:induction false} UrlRuns(p: Parser, url: Bytes, k: nat, ev: seq<Event>, n: nat)
    requires p.state == InRequest(ReqSpacesBeforeUrl) && UrlState(p, url, |url|).Some?
    requires 1 <= k <= |url| && p.nread + k <= MAX_HEADER_SIZE
    ensures UrlState(p, url, k).Some?
    ensures RunFrom(Running(p, None, ev, n), url[..k]) ==
            Running(UrlAt(p, url, k), Some(Piece(UrlText, url[..k])), ev, n + k)
    decreases k
  {
    hide RunFrom, Next, Byte, UrlAt, UrlState;
    var r0 := Running(p, None, ev, n);
    RunLast(r0, url[..k]);
    assert url[..k][..k - 1] == url[..k - 1];
    if k == 1 {
      assert url[..0] == [] && url[..1] == [url[0]];
      NothingRun(r0);
      UrlFirstTurn(p, url);
      HttpValues.FirstStep(p, url[0], UrlAt(p, url, 1), UrlText, ev, n);
    } else {
      UrlRuns(p, url, k - 1, ev, n);
      UrlTurn(p, url, k - 1);
      NextInside(UrlAt(p, url, k - 1), Piece(UrlText, url[..k - 1]), ev, n + k - 1, url[k - 1], UrlAt(p, url, k));
      assert url[..k - 1] + [url[k - 1]] == url[..k];
    }
  }

  /** The states in which a URL may end. */
  predicate MayEnd(u: HttpTypes.UrlState) {
    !(u.ReqSchema? || u.ReqSchemaSlash? || u.ReqSchemaSlashSlash? || u.ReqServerStart?)
  }

  lemma UrlSpace(p: Parser, u: HttpTypes.UrlState, url: Bytes, ev: seq<Event>, n: nat)
    requires p.state == InUrl(u) && MayEnd(u) && p.nread < MAX_HEADER_SIZE
    ensures Next(Running(p, Some(Piece(UrlText, url)), ev, n), SPACE) ==
            Running(p.(state := InRequest(ReqHttpStart), nread := p.nread + 1), None, ev + [Data(UrlText, url)], n + 1)
  {
    assert Byte(p, SPACE) ==
           Go(p.(state := InRequest(ReqHttpStart), nread := p.nread + 1), [Close(UrlText)], []);
    hide Byte;
    OnePerformed(Some(Piece(UrlText, url)), [Close(UrlText)], SPACE);
    assert ev + [Data(UrlText, url)] + [] == ev + [Data(UrlText, url)];
  }

  /** A URL written from parts is accepted, and may end where it does. */
  lemma WrittenUrl(p: Parser, parts: C.Parts)
    requires C.Formed(parts, p.verb == CONNECT)
    ensures var url := C.Written(parts);
            url != [] && UrlState(p, url, |url|).Some? && MayEnd(UrlState(p, url, |url|).value)
  {
    var url := C.Written(parts);
    C.OuterWalks(parts, p.verb == CONNECT);
    C.HostAccepted(parts, p.verb == CONNECT);
    assert url[..|url|] == url;
    hide C.Formed, C.Run, C.Written;
    UrlEnds(parts);
  }

  lemma UrlEnds(parts: C.Parts)
    ensures MayEnd(C.AfterFragment(parts))
  {
  }

  // ----- the version

  const HTTP: string := "HTTP/"

  /** HTTP/ and two digits with a point between. */
  function Version(major: nat, minor: nat): Bytes
    requires major < 10 && minor < 10
  {
    [72, 84, 84, 80, 47, 48 + major, DOT, 48 + minor]
  }

  /** Where a request stands after `k` characters of the version. */
  function VersionState(k: nat): ReqState {
    if k == 0 then ReqHttpStart else if k == 1 then ReqHttpH else if k == 2 then ReqHttpHT
      else if k == 3 then ReqHttpHTT
    else if k == 4 then ReqHttpHTTP else if k == 5 then ReqHttpMajor else if k == 6 then ReqHttpDot
    else if k == 7 then ReqHttpMinor else ReqHttpEnd
  }

  function VersionAt(p: Parser, major: nat, minor: nat, k: nat): Parser {
    p.(state := InRequest(VersionState(k)), nread := p.nread + k,
       httpMajor := if k >= 6 then major else p.httpMajor, httpMinor := if k >= 8 then minor else p.httpMinor)
  }

  lemma VersionTurn(p: Parser, major: nat, minor: nat, k: nat)
    requires major < 10 && minor < 10 && k < 8 && p.nread + k < MAX_HEADER_SIZE
    ensures Byte(VersionAt(p, major, minor, k), Version(major, minor)[k]) ==
            Go(VersionAt(p, major, minor, k + 1), [], [])
  {
  }

  lemma {:induction false} VersionRuns(p: Parser, major: nat, minor: nat, k: nat, ev: seq<Event>, n: nat)
    requires major < 10 && minor < 10 && k <= 8 && p.nread + k <= MAX_HEADER_SIZE && p.state == InRequest(ReqHttpStart)
    ensures RunFrom(Running(p, None, ev, n), Version(major, minor)[..k]) ==
            Running(VersionAt(p, major, minor, k), None, ev, n + k)
    decreases k
  {
    hide RunFrom, Next, Byte, Version;
    var r0, t := Running(p, None, ev, n), Version(major, minor);
    assert |t| == 8 by { VersionLength(major, minor); }
    if k == 0 {
      NothingRun(r0);
      assert t[..0] == [];
    } else {
      RunLast(r0, t[..k]);
      assert t[..k][..k - 1] == t[..k - 1];
      VersionRuns(p, major, minor, k - 1, ev, n);
      VersionTurn(p, major, minor, k - 1);
      Quietly(VersionAt(p, major, minor, k - 1), ev, n + k - 1, t[k - 1], VersionAt(p, major, minor, k), []);
      assert ev + [] == ev;
    }
  }

  lemma VersionLength(major: nat, minor: nat)
    requires major < 10 && minor < 10
    ensures |Version(major, minor)| == 8
  {
  }

  lemma LineEndTurns(p: Parser)
    requires p.state == InRequest(ReqHttpEnd) && p.nread < MAX_HEADER_SIZE
    ensures Byte(p, LF) == Go(p.(state := Ending(HeaderFieldStart), nread := p.nread + 1), [], [])
    ensures var q := p.(state := InRequest(ReqLineAlmostDone), nread := p.nread + 1);
            Byte(p, CR) == Go(q, [], []) &&
            (q.nread < MAX_HEADER_SIZE ==>
               Byte(q, LF) == Go(p.(state := Ending(HeaderFieldStart), nread := p.nread + 2), [], []))
  {
    if p.nread + 1 < MAX_HEADER_SIZE {
      AlmostLine(p.(state := InRequest(ReqLineAlmostDone), nread := p.nread + 1));
    }
  }

  lemma AlmostLine(q: Parser)
    requires q.state == InRequest(ReqLineAlmostDone) && q.nread < MAX_HEADER_SIZE
    ensures Byte(q, LF) == Go(q.(state := Ending(HeaderFieldStart), nread := q.nread + 1), [], [])
  {
  }

  lemma LineEndRuns(p: Parser, end: Bytes, ev: seq<Event>, n: nat)
    requires p.state == InRequest(ReqHttpEnd) && LineEnd(end) && p.nread + |end| <= MAX_HEADER_SIZE
    ensures RunFrom(Running(p, None, ev, n), end) ==
            Running(p.(state := Ending(HeaderFieldStart), nread := p.nread + |end|), None, ev, n + |end|)
  {
    hide Byte, RunFrom, MAX_HEADER_SIZE;
    LineEndTurns(p);
    if end == [LF] {
      QuietOne(p, p.(state := Ending(HeaderFieldStart), nread := p.nread + 1), LF, ev, n);
    } else {
      var q := p.(state := InRequest(ReqLineAlmostDone), nread := p.nread + 1);
      QuietTwo(p, q, p.(state := Ending(HeaderFieldStart), nread := p.nread + 2), CR, LF, ev, n);
    }
  }

  lemma QuietOne(p: Parser, q: Parser, a: byte, ev: seq<Event>, n: nat)
    requires Byte(p, a) == Go(q, [], [])
    ensures RunFrom(Running(p, None, ev, n), [a]) == Running(q, None, ev, n + 1)
  {
    hide Byte, Next, RunFrom;
    OneByte(Running(p, None, ev, n), a);
    Quietly(p, ev, n, a, q, []);
    assert ev + [] == ev;
  }

  lemma QuietTwo(p: Parser, q: Parser, q': Parser, a: byte, b: byte, ev: seq<Event>, n: nat)
    requires Byte(p, a) == Go(q, [], []) && Byte(q, b) == Go(q', [], [])
    ensures RunFrom(Running(p, None, ev, n), [a, b]) == Running(q', None, ev, n + 2)
  {
    hide Byte, Next, RunFrom;
    TwoBytes(Running(p, None, ev, n), a, b);
    Quietly(p, ev, n, a, q, []);
    Quietly(q, ev, n + 1, b, q', []);
    assert ev + [] == ev;
  }

  // ----- the request line

  /** A request line: the method and its name, spaces, the parts of the URL, spaces, the version,
      a line end. */
  datatype RequestStart = RequestStart(verb: Method, name: Bytes, gap: Bytes, url: C.Parts, space: Bytes, major: nat,
                                       minor: nat, end: Bytes)

  ghost predicate ProperRequestLine(s: RequestStart) {
    && Names(s.name, s.verb) && s.gap != [] && Spaces(s.gap) && C.Formed(s.url, s.verb == CONNECT)
    && s.space != [] && Spaces(s.space) && s.major < 10 && s.minor < 10 && LineEnd(s.end)
  }

  function RequestLineText(s: RequestStart): Bytes
    requires s.major < 10 && s.minor < 10
  {
    s.name + s.gap + C.Written(s.url) + s.space + Version(s.major, s.minor) + s.end
  }

  /** The parser after a request line. */
  function AfterRequestLine(p: Parser, s: RequestStart, nread: nat): Parser {
    Fresh(p).(state := Ending(HeaderFieldStart), verb := s.verb, httpMajor := s.major, httpMinor := s.minor,
              index := |s.name| + 1, nread := nread)
  }

  /** After the method and the spaces that follow it. */
  lemma MethodThenSpaces(p: Parser, s: RequestStart)
    requires p.state == InRequest(StartReq) && Names(s.name, s.verb) && s.gap != [] && Spaces(s.gap)
    requires p.nread + |s.name| + |s.gap| <= MAX_HEADER_SIZE
    ensures RunFrom(Running(p, None, [], 0), s.name + s.gap) ==
            Running(Fresh(p).(state := InRequest(ReqSpacesBeforeUrl), verb := s.verb, index := |s.name| + 1,
                              nread := p.nread + |s.name| + |s.gap|), None, [MessageBegin], |s.name| + |s.gap|)
  {
    hide RunFrom, Next, MethodAt, Byte, MethodName, Fresh;
    var r0, k := Running(p, None, [], 0), |s.name|;
    RunSplit(r0, s.name, s.gap);
    MethodRuns(p, s.verb, s.name, k);
    assert s.name[..k] == s.name;
    assert s.gap == [SPACE] + s.gap[1..];
    var r := RunFrom(r0, s.name);
    RunSplit(r, [SPACE], s.gap[1..]);
    OneByte(r, SPACE);
    MethodSpace(p, s.verb);
    var q := Fresh(p).(state := InRequest(ReqSpacesBeforeUrl), verb := s.verb, index := k + 1,
                       nread := p.nread + k + 1);
    Quietly(MethodAt(p, s.verb, k), [MessageBegin], k, SPACE, q, []);
    assert [MessageBegin] + [] == [MessageBegin];
    SpacesPassed(q, s.gap[1..], [MessageBegin], k + 1);
  }

  /** The URL and the spaces that follow it. */
  lemma UrlThenSpaces(q: Parser, s: RequestStart, ev: seq<Event>, n: nat)
    requires q.state == InRequest(ReqSpacesBeforeUrl) && q.verb == s.verb && C.Formed(s.url, s.verb == CONNECT)
    requires s.space != [] && Spaces(s.space) && q.nread + |C.Written(s.url)| + |s.space| <= MAX_HEADER_SIZE
    ensures var k := |C.Written(s.url)| + |s.space|;
      RunFrom(Running(q, None, ev, n), C.Written(s.url) + s.space) ==
      Running(q.(state := InRequest(ReqHttpStart), nread := q.nread + k), None, ev + [Data(UrlText, C.Written(s.url))],
              n + k)
  {
    hide *;
    var url, r0 := C.Written(s.url), Running(q, None, ev, n);
    WrittenUrl(q, s.url);
    RunSplit(r0, url, s.space);
    UrlRuns(q, url, |url|, ev, n);
    assert url[..|url|] == url;
    FirstSpace(s.space);
    PassesSpaces(q);
    var r, ev1 := RunFrom(r0, url), ev + [Data(UrlText, url)];
    RunSplit(r, [SPACE], s.space[1..]);
    OneByte(r, SPACE);
    UrlAtIs(q, url);
    UrlSpace(UrlAt(q, url, |url|), UrlState(q, url, |url|).value, url, ev, n + |url|);
    SpacesPassed(q.(state := InRequest(ReqHttpStart), nread := q.nread + |url| + 1), s.space[1..], ev1, n + |url| + 1);
  }

  lemma FirstSpace(spaces: Bytes)
    requires spaces != [] && Spaces(spaces)
    ensures spaces == [SPACE] + spaces[1..] && Spaces(spaces[1..])
  {
  }

  lemma PassesSpaces(q: Parser)
    ensures Passes(InRequest(ReqSpacesBeforeUrl)) && Passes(InRequest(ReqHttpStart)) &&
            Passes(InResponse(ResFirstStatusCode))
  {
  }

  lemma UrlAtIs(q: Parser, url: Bytes)
    requires UrlState(q, url, |url|).Some?
    ensures UrlAt(q, url, |url|) == q.(state := InUrl(UrlState(q, url, |url|).value), nread := q.nread + |url|)
  {
  }

  lemma VersionThenEnd(q: Parser, s: RequestStart, ev: seq<Event>, n: nat)
    requires q.state == InRequest(ReqHttpStart) && s.major < 10 && s.minor < 10 && LineEnd(s.end)
    requires q.nread + 8 + |s.end| <= MAX_HEADER_SIZE
    ensures RunFrom(Running(q, None, ev, n), Version(s.major, s.minor) + s.end) ==
            Running(q.(state := Ending(HeaderFieldStart), httpMajor := s.major, httpMinor := s.minor,
                       nread := q.nread + 8 + |s.end|), None, ev, n + 8 + |s.end|)
  {
    hide RunFrom, LineEnd, Version;
    var t := Version(s.major, s.minor);
    VersionLength(s.major, s.minor);
    RunSplit(Running(q, None, ev, n), t, s.end);
    VersionRuns(q, s.major, s.minor, 8, ev, n);
    assert t[..8] == t;
    LineEndRuns(VersionAt(q, s.major, s.minor, 8), s.end, ev, n + 8);
  }

  /** The parser before the version. */
  function BeforeVersion(p: Parser, s: RequestStart, nread: nat): Parser {
    Fresh(p).(state := InRequest(ReqHttpStart), verb := s.verb, index := |s.name| + 1, nread := nread)
  }

  /** All of a request line that stands before the version. */
  lemma MethodThenUrl(p: Parser, s: RequestStart)
    requires p.state == InRequest(StartReq) && ProperRequestLine(s)
    requires p.nread + |UpToVersion(s)| <= MAX_HEADER_SIZE
    ensures var k := |UpToVersion(s)|;
      RunFrom(Running(p, None, [], 0), UpToVersion(s)) ==
      Running(BeforeVersion(p, s, p.nread + k), None, [MessageBegin, Data(UrlText, C.Written(s.url))], k)
  {
    hide *;
    LineParts(s);
    var a, b := s.name + s.gap, C.Written(s.url) + s.space;
    RunSplit(Running(p, None, [], 0), a, b);
    MethodThenSpaces(p, s);
    var q := Fresh(p).(state := InRequest(ReqSpacesBeforeUrl), verb := s.verb, index := |s.name| + 1,
                       nread := p.nread + |a|);
    UrlThenSpaces(q, s, [MessageBegin], |a|);
    assert [MessageBegin] + [Data(UrlText, C.Written(s.url))] == [MessageBegin, Data(UrlText, C.Written(s.url))];
    BeforeVersionIs(p, s, p.nread + |a| + |b|);
  }

  function UpToVersion(s: RequestStart): Bytes {
    (s.name + s.gap) + (C.Written(s.url) + s.space)
  }

  lemma BeforeVersionIs(p: Parser, s: RequestStart, nread: nat)
    ensures BeforeVersion(p, s, nread) ==
            Fresh(p).(state := InRequest(ReqHttpStart), verb := s.verb, index := |s.name| + 1, nread := nread)
    ensures BeforeVersion(p, s, nread).(state := Ending(HeaderFieldStart), httpMajor := s.major, httpMinor := s.minor,
                                        nread := nread + 8 + |s.end|) ==
            AfterRequestLine(p, s, nread + 8 + |s.end|)
  {
    hide Fresh;
  }

  /** A request line is read as it was written. */
  lemma RequestLineRuns(p: Parser, s: RequestStart)
    requires p.state == InRequest(StartReq) && ProperRequestLine(s)
    requires p.nread + |RequestLineText(s)| <= MAX_HEADER_SIZE
    ensures var k := |RequestLineText(s)|;
      RunFrom(Running(p, None, [], 0), RequestLineText(s)) ==
      Running(AfterRequestLine(p, s, p.nread + k), None, [MessageBegin, Data(UrlText, C.Written(s.url))], k)
  {
    hide *;
    LineParts(s);
    VersionLength(s.major, s.minor);
    var k := |UpToVersion(s)|;
    RunSplit(Running(p, None, [], 0), UpToVersion(s), Version(s.major, s.minor) + s.end);
    MethodThenUrl(p, s);
    BeforeVersionIs(p, s, p.nread + k);
    VersionThenEnd(BeforeVersion(p, s, p.nread + k), s, [MessageBegin, Data(UrlText, C.Written(s.url))], k);
  }

  lemma LineParts(s: RequestStart)
    requires ProperRequestLine(s)
    ensures Names(s.name, s.verb) && s.gap != [] && Spaces(s.gap) && C.Formed(s.url, s.verb == CONNECT)
    ensures s.space != [] && Spaces(s.space) && s.major < 10 && s.minor < 10 && LineEnd(s.end)
    ensures UpToVersion(s) == (s.name + s.gap) + (C.Written(s.url) + s.space)
    ensures RequestLineText(s) == UpToVersion(s) + (Version(s.major, s.minor) + s.end)
  {
    hide Names, Spaces, C.Formed, C.Written, LineEnd, Version;
    assert RequestLineText(s) == s.name + s.gap + C.Written(s.url) + s.space + Version(s.major, s.minor) + s.end;
  }

  // ----- the status line

  /** Where a response stands after `k` characters of the version. */
  function StatusState(k: nat): ResState {
    if k == 0 then StartRes else if k == 1 then ResH else if k == 2 then ResHT else if k == 3 then ResHTT
    else if k == 4 then ResHTTP else if k == 5 then ResHttpMajor else if k == 6 then ResHttpDot
    else if k == 7 then ResHttpMinor else ResHttpEnd
  }

  function StatusAt(p: Parser, major: nat, minor: nat, k: nat): Parser {
    Fresh(p).(state := InResponse(StatusState(k)), nread := p.nread + k,
              httpMajor := if k >= 6 then major else p.httpMajor, httpMinor := if k >= 8 then minor else p.httpMinor)
  }

  lemma StatusFirst(p: Parser, major: nat, minor: nat)
    requires p.state == InResponse(StartRes) && p.nread < MAX_HEADER_SIZE
    ensures Byte(p, 72) == Go(StatusAt(p, major, minor, 1), [], [MessageBegin])
  {
  }

  lemma StatusTurn(p: Parser, major: nat, minor: nat, k: nat)
    requires major < 10 && minor < 10 && 0 < k < 8 && p.nread + k < MAX_HEADER_SIZE
    ensures Byte(StatusAt(p, major, minor, k), Version(major, minor)[k]) ==
            Go(StatusAt(p, major, minor, k + 1), [], [])
  {
  }

  lemma {:induction false} StatusVersionRuns(p: Parser, major: nat, minor: nat, k: nat)
    requires major < 10 && minor < 10 && 1 <= k <= 8 && p.nread + k <= MAX_HEADER_SIZE &&
             p.state == InResponse(StartRes)
    ensures RunFrom(Running(p, None, [], 0), Version(major, minor)[..k]) ==
            Running(StatusAt(p, major, minor, k), None, [MessageBegin], k)
    decreases k
  {
    hide RunFrom, Next, Byte, Version, StatusAt;
    var r0, t := Running(p, None, [], 0), Version(major, minor);
    assert |t| == 8 && t[0] == 72 by { VersionStarts(major, minor); }
    RunLast(r0, t[..k]);
    assert t[..k][..k - 1] == t[..k - 1];
    if k == 1 {
      NothingRun(r0);
      assert t[..0] == [] && t[..1] == [t[0]];
      StatusFirst(p, major, minor);
      Quietly(p, [], 0, 72, StatusAt(p, major, minor, 1), [MessageBegin]);
      assert [] + [MessageBegin] == [MessageBegin];
    } else {
      StatusVersionRuns(p, major, minor, k - 1);
      StatusTurn(p, major, minor, k - 1);
      Quietly(StatusAt(p, major, minor, k - 1), [MessageBegin], k - 1, t[k - 1], StatusAt(p, major, minor, k), []);
      assert [MessageBegin] + [] == [MessageBegin];
    }
  }

  lemma VersionStarts(major: nat, minor: nat)
    requires major < 10 && minor < 10
    ensures |Version(major, minor)| == 8 && Version(major, minor)[0] == 72
  {
  }

  lemma CodeSpace(p: Parser)
    requires p.state == InResponse(ResHttpEnd) && p.nread < MAX_HEADER_SIZE
    ensures Byte(p, SPACE) == Go(p.(state := InResponse(ResFirstStatusCode), nread := p.nread + 1), [], [])
  {
  }

  /** The parser after the digits of a status code. */
  function CodeAt(p: Parser, ds: Bytes): Parser
    requires AllDigits(ds)
  {
    p.(state := InResponse(ResStatusCode), statusCode := Numeral(0, ds), nread := p.nread + |ds|)
  }

  lemma CodeFirst(p: Parser, d: byte)
    requires p.state == InResponse(ResFirstStatusCode) && p.nread < MAX_HEADER_SIZE && IsDigit(d)
    ensures Byte(p, d) == Go(CodeAt(p, [d]), [], [])
  {
    OneFigure(d);
    hide Numeral;
  }

  lemma CodeNext(p: Parser, ds: Bytes, d: byte)
    requires AllDigits(ds) && IsDigit(d) && p.nread + |ds| < MAX_HEADER_SIZE
    requires AllDigits(ds + [d]) && Numeral(0, ds + [d]) <= 999
    ensures Byte(CodeAt(p, ds), d) == Go(CodeAt(p, ds + [d]), [], [])
  {
    hide *;
    NumeralAppend(0, ds, d);
    CodeAtIs(p, ds, d);
    CodeTurn(CodeAt(p, ds), d);
  }

  lemma CodeAtIs(p: Parser, ds: Bytes, d: byte)
    requires AllDigits(ds) && AllDigits(ds + [d])
    ensures var q := CodeAt(p, ds);
      q.state == InResponse(ResStatusCode) && q.nread == p.nread + |ds| && q.statusCode == Numeral(0, ds) &&
      CodeAt(p, ds + [d]) == q.(statusCode := Numeral(0, ds + [d]), nread := q.nread + 1)
  {
    hide Numeral, AllDigits;
  }

  lemma CodeTurn(q: Parser, d: byte)
    requires q.state == InResponse(ResStatusCode) && q.nread < MAX_HEADER_SIZE && IsDigit(d)
    requires q.statusCode * 10 + (d - 48) <= 999
    ensures Byte(q, d) == Go(q.(statusCode := q.statusCode * 10 + (d - 48), nread := q.nread + 1), [], [])
  {
  }

  lemma {:induction false} CodeRuns(p: Parser, ds: Bytes, ev: seq<Event>, n: nat)
    requires p.state == InResponse(ResFirstStatusCode) && ds != [] && AllDigits(ds) && Numeral(0, ds) <= 999
    requires p.nread + |ds| <= MAX_HEADER_SIZE
    ensures RunFrom(Running(p, None, ev, n), ds) == Running(CodeAt(p, ds), None, ev, n + |ds|)
    decreases |ds|
  {
    hide RunFrom, Next, Byte, Numeral, CodeAt;
    var r0, k := Running(p, None, ev, n), |ds| - 1;
    RunLast(r0, ds);
    assert ev + [] == ev;
    if k == 0 {
      assert ds[..0] == [] && ds == [ds[0]];
      NothingRun(r0);
      CodeFirst(p, ds[0]);
      Quietly(p, ev, n, ds[0], CodeAt(p, ds), []);
    } else {
      assert ds == ds[..k] + [ds[k]];
      NumeralAppend(0, ds[..k], ds[k]);
      CodeRuns(p, ds[..k], ev, n);
      CodeNext(p, ds[..k], ds[k]);
      Quietly(CodeAt(p, ds[..k]), ev, n + k, ds[k], CodeAt(p, ds), []);
    }
  }

  /** A reason phrase has no line end in it. */
  predicate IsReason(t: Bytes) {
    forall k :: 0 <= k < |t| ==> t[k] != CR && t[k] != LF
  }

  lemma ReasonSpace(p: Parser)
    requires p.state == InResponse(ResStatusCode) && p.nread < MAX_HEADER_SIZE
    ensures Byte(p, SPACE) == Go(p.(state := InResponse(ResStatusStart), nread := p.nread + 1), [], [])
  {
  }

  lemma ReasonFirst(p: Parser, ch: byte)
    requires p.state == InResponse(ResStatusStart) && p.nread < MAX_HEADER_SIZE && ch != CR && ch != LF
    ensures Byte(p, ch) ==
            Go(p.(state := InResponse(ResStatus), index := 0, nread := p.nread + 1), [Open(StatusText)], [])
  {
  }

  lemma ReasonNext(p: Parser, ch: byte)
    requires p.state == InResponse(ResStatus) && p.nread < MAX_HEADER_SIZE && ch != CR && ch != LF
    ensures Byte(p, ch) == Go(p.(nread := p.nread + 1), [], [])
  {
  }

  lemma {:induction false} ReasonRuns(p: Parser, t: Bytes, k: nat, ev: seq<Event>, n: nat)
    requires p.state == InResponse(ResStatusStart) && IsReason(t) && 1 <= k <= |t| && p.nread + k <= MAX_HEADER_SIZE
    ensures RunFrom(Running(p, None, ev, n), t[..k]) ==
            Running(p.(state := InResponse(ResStatus), index := 0, nread := p.nread + k),
                    Some(Piece(StatusText, t[..k])), ev, n + k)
    decreases k
  {
    hide RunFrom, Next, Byte;
    var r0 := Running(p, None, ev, n);
    RunLast(r0, t[..k]);
    assert t[..k][..k - 1] == t[..k - 1];
    if k == 1 {
      assert t[..0] == [] && t[..1] == [t[0]];
      NothingRun(r0);
      ReasonFirst(p, t[0]);
      HttpValues.FirstStep(p, t[0], p.(state := InResponse(ResStatus), index := 0, nread := p.nread + 1), StatusText,
                          ev, n);
    } else {
      ReasonRuns(p, t, k - 1, ev, n);
      var q := p.(state := InResponse(ResStatus), index := 0, nread := p.nread + k - 1);
      ReasonNext(q, t[k - 1]);
      NextInside(q, Piece(StatusText, t[..k - 1]), ev, n + k - 1, t[k - 1], q.(nread := p.nread + k));
      assert t[..k - 1] + [t[k - 1]] == t[..k];
    }
  }

  /** Where a status line may end, and what is told there. */
  ghost predicate StatusOpen(p: Parser, open: Option<Piece>, text: Bytes) {
    if text == [] then (p.state == InResponse(ResStatusCode) || p.state == InResponse(ResStatusStart)) && open == None
    else p.state == InResponse(ResStatus) && p.index == 0 && open == Some(Piece(StatusText, text))
  }

  lemma StatusEndTurn(p: Parser, open: Option<Piece>, text: Bytes, ch: byte)
    requires StatusOpen(p, open, text) && p.nread < MAX_HEADER_SIZE && (ch == CR || ch == LF)
    ensures var s := if ch == CR then InResponse(ResLineAlmostDone) else Ending(HeaderFieldStart);
      Byte(p, ch) == Go(p.(state := s, index := 0, nread := p.nread + 1),
                        [if text == [] then Empty(StatusText) else Close(StatusText)], [])
  {
  }

  lemma StatusEndStep(p: Parser, open: Option<Piece>, text: Bytes, ch: byte, ev: seq<Event>, n: nat)
    requires StatusOpen(p, open, text) && p.nread < MAX_HEADER_SIZE && (ch == CR || ch == LF)
    ensures var s := if ch == CR then InResponse(ResLineAlmostDone) else Ending(HeaderFieldStart);
      Next(Running(p, open, ev, n), ch) ==
      Running(p.(state := s, index := 0, nread := p.nread + 1), None, ev + [Data(StatusText, text)], n + 1)
  {
    StatusEndTurn(p, open, text, ch);
    hide Byte;
    OnePerformed(open, [if text == [] then Empty(StatusText) else Close(StatusText)], ch);
    assert ev + [Data(StatusText, text)] + [] == ev + [Data(StatusText, text)];
  }

  lemma StatusLf(p: Parser)
    requires p.state == InResponse(ResLineAlmostDone) && p.nread < MAX_HEADER_SIZE
    ensures Byte(p, LF) == Go(p.(state := Ending(HeaderFieldStart), nread := p.nread + 1), [], [])
  {
  }

  lemma StatusEndRuns(p: Parser, open: Option<Piece>, text: Bytes, end: Bytes, ev: seq<Event>, n: nat)
    requires StatusOpen(p, open, text) && LineEnd(end) && p.nread + |end| <= MAX_HEADER_SIZE
    ensures RunFrom(Running(p, open, ev, n), end) ==
            Running(p.(state := Ending(HeaderFieldStart), index := 0, nread := p.nread + |end|), None,
                    ev + [Data(StatusText, text)], n + |end|)
  {
    hide Byte, Next, RunFrom, StatusOpen;
    var r, told := Running(p, open, ev, n), ev + [Data(StatusText, text)];
    if end == [LF] {
      OneByte(r, LF);
      StatusEndStep(p, open, text, LF, ev, n);
    } else {
      TwoBytes(r, CR, LF);
      StatusEndStep(p, open, text, CR, ev, n);
      var q := p.(state := InResponse(ResLineAlmostDone), index := 0, nread := p.nread + 1);
      StatusLf(q);
      Quietly(q, told, n + 1, LF, q.(state := Ending(HeaderFieldStart), nread := p.nread + 2), []);
      assert told + [] == told;
    }
  }

  /** A status line: the version, spaces, the digits of the code, perhaps a space and a reason
      phrase, a line end. */
  datatype StatusStart = StatusStart(major: nat, minor: nat, gap: Bytes, code: Bytes, reason: Option<Bytes>, end: Bytes)

  ghost predicate ProperStatusLine(s: StatusStart) {
    && s.major < 10 && s.minor < 10 && s.gap != [] && Spaces(s.gap)
    && s.code != [] && AllDigits(s.code) && Numeral(0, s.code) <= 999
    && (s.reason.Some? ==> IsReason(s.reason.value)) && LineEnd(s.end)
  }

  function ReasonOf(s: StatusStart): Bytes {
    if s.reason.Some? then s.reason.value else []
  }

  function StatusLineText(s: StatusStart): Bytes
    requires s.major < 10 && s.minor < 10
  {
    Version(s.major, s.minor) + s.gap + s.code + (if s.reason.Some? then [SPACE] + s.reason.value else []) + s.end
  }

  /** The parser after a status line. */
  function AfterStatusLine(p: Parser, s: StatusStart, nread: nat): Parser
    requires AllDigits(s.code)
  {
    Fresh(p).(state := Ending(HeaderFieldStart), httpMajor := s.major, httpMinor := s.minor,
              statusCode := Numeral(0, s.code), index := 0, nread := nread)
  }

  lemma StatusVersion(p: Parser, s: StatusStart)
    requires p.state == InResponse(StartRes) && s.major < 10 && s.minor < 10 && s.gap != [] && Spaces(s.gap)
    requires p.nread + 8 + |s.gap| <= MAX_HEADER_SIZE
    ensures RunFrom(Running(p, None, [], 0), Version(s.major, s.minor) + s.gap) ==
            Running(Fresh(p).(state := InResponse(ResFirstStatusCode), httpMajor := s.major, httpMinor := s.minor,
                              nread := p.nread + 8 + |s.gap|), None, [MessageBegin], 8 + |s.gap|)
  {
    hide RunFrom, Next, Byte, Version, Fresh;
    var r0, t := Running(p, None, [], 0), Version(s.major, s.minor);
    VersionLength(s.major, s.minor);
    RunSplit(r0, t, s.gap);
    StatusVersionRuns(p, s.major, s.minor, 8);
    assert t[..8] == t && s.gap == [SPACE] + s.gap[1..];
    var r, q := RunFrom(r0, t), StatusAt(p, s.major, s.minor, 8);
    RunSplit(r, [SPACE], s.gap[1..]);
    CodeSpace(q);
    QuietOne(q, q.(state := InResponse(ResFirstStatusCode), nread := p.nread + 9), SPACE, [MessageBegin], 8);
    SpacesPassed(q.(state := InResponse(ResFirstStatusCode), nread := p.nread + 9), s.gap[1..], [MessageBegin], 9);
  }

  /** The reason phrase, if there is one, and the line end. */
  lemma ReasonThenEnd(q: Parser, s: StatusStart, ev: seq<Event>, n: nat)
    requires q.state == InResponse(ResStatusCode) && (s.reason.Some? ==> IsReason(s.reason.value)) && LineEnd(s.end)
    requires q.nread + |if s.reason.Some? then [SPACE] + s.reason.value else []| + |s.end| <= MAX_HEADER_SIZE
    ensures var t := (if s.reason.Some? then [SPACE] + s.reason.value else []) + s.end;
      RunFrom(Running(q, None, ev, n), t) ==
      Running(q.(state := Ending(HeaderFieldStart), index := 0, nread := q.nread + |t|), None,
              ev + [Data(StatusText, ReasonOf(s))], n + |t|)
  {
    hide RunFrom, LineEnd, Byte;
    var r0 := Running(q, None, ev, n);
    if s.reason.None? {
      assert [] + s.end == s.end;
      StatusEndRuns(q, None, [], s.end, ev, n);
    } else {
      var text := s.reason.value;
      var q1 := q.(state := InResponse(ResStatusStart), nread := q.nread + 1);
      ReasonSpace(q);
      QuietOne(q, q1, SPACE, ev, n);
      RunSplit(r0, [SPACE], text);
      RunSplit(r0, [SPACE] + text, s.end);
      if text == [] {
        NothingRun(Running(q1, None, ev, n + 1));
        StatusEndRuns(q1, None, [], s.end, ev, n + 1);
      } else {
        ReasonRuns(q1, text, |text|, ev, n + 1);
        assert text[..|text|] == text;
        var q2 := q1.(state := InResponse(ResStatus), index := 0, nread := q1.nread + |text|);
        StatusEndRuns(q2, Some(Piece(StatusText, text)), text, s.end, ev, n + 1 + |text|);
      }
    }
  }

  /** A status line is read as it was written. */
  lemma StatusLineRuns(p: Parser, s: StatusStart)
    requires p.state == InResponse(StartRes) && ProperStatusLine(s)
    requires p.nread + |StatusLineText(s)| <= MAX_HEADER_SIZE
    ensures var k := |StatusLineText(s)|;
      RunFrom(Running(p, None, [], 0), StatusLineText(s)) ==
      Running(AfterStatusLine(p, s, p.nread + k), None, [MessageBegin, Data(StatusText, ReasonOf(s))], k)
  {
    hide RunFrom, Spaces, LineEnd, Version, Fresh, Numeral, AllDigits, IsReason;
    VersionLength(s.major, s.minor);
    var r0, a := Running(p, None, [], 0), Version(s.major, s.minor) + s.gap;
    var c := (if s.reason.Some? then [SPACE] + s.reason.value else []) + s.end;
    assert StatusLineText(s) == a + s.code + c;
    RunSplit(r0, a + s.code, c);
    RunSplit(r0, a, s.code);
    StatusVersion(p, s);
    var q := Fresh(p).(state := InResponse(ResFirstStatusCode), httpMajor := s.major, httpMinor := s.minor,
                       nread := p.nread + |a|);
    CodeRuns(q, s.code, [MessageBegin], |a|);
    ReasonThenEnd(CodeAt(q, s.code), s, [MessageBegin], |a| + |s.code|);
    assert [MessageBegin] + [Data(StatusText, ReasonOf(s))] == [MessageBegin, Data(StatusText, ReasonOf(s))];
  }

  // ----- a parser of either kind

  /** At the start of a message that may be of the kind. A session's parser takes either. */
  predicate MayStart(p: Parser, kind: Type) {
    if p.kind == HttpBoth then p.state == StartReqOrRes
    else p.kind == kind && p.state == if kind == HttpRequest then InRequest(StartReq) else InResponse(StartRes)
  }

  /** The parser made for the one kind. */
  function MadeFor(p: Parser, kind: Type): Parser {
    p.(kind := kind, state := if kind == HttpRequest then InRequest(StartReq) else InResponse(StartRes))
  }

  lemma EitherFirst(p: Parser, ch: byte)
    requires p.state == StartReqOrRes && p.nread < MAX_HEADER_SIZE && FirstMethod(ch).Some?
    ensures ch == 72 ==> Byte(p, ch) == Go(Fresh(p).(state := ResOrRespH, nread := p.nread + 1), [], [MessageBegin])
    ensures ch != 72 ==> Byte(p, ch) == Byte(MadeFor(p, HttpRequest), ch)
  {
    assert ch != CR && ch != LF;
  }

  lemma EitherSecond(p: Parser)
    requires p.nread < MAX_HEADER_SIZE - 1
    ensures var q := Fresh(p).(state := ResOrRespH, nread := p.nread + 1);
      Byte(q, 69) == Go(MethodAt(MadeFor(p, HttpRequest), HEAD, 2), [], []) &&
      forall major, minor :: Byte(q, 84) == Go(StatusAt(MadeFor(p, HttpResponse), major, minor, 2), [], [])
  {
  }

  lemma EitherTwo(p: Parser, ch: byte, q: Parser)
    requires p.state == StartReqOrRes && p.nread < MAX_HEADER_SIZE - 1
    requires Byte(Fresh(p).(state := ResOrRespH, nread := p.nread + 1), ch) == Go(q, [], [])
    ensures RunFrom(Running(p, None, [], 0), [72, ch]) == Running(q, None, [MessageBegin], 2)
  {
    hide RunFrom, Next, Byte, Fresh;
    var r0, h := Running(p, None, [], 0), Fresh(p).(state := ResOrRespH, nread := p.nread + 1);
    EitherFirst(p, 72);
    assert [72, ch] == [72] + [ch] && [] + [MessageBegin] == [MessageBegin] && [MessageBegin] + [] == [MessageBegin];
    RunSplit(r0, [72], [ch]);
    OneByte(r0, 72);
    Quietly(p, [], 0, 72, h, [MessageBegin]);
    OneByte(Running(h, None, [MessageBegin], 1), ch);
    Quietly(h, [MessageBegin], 1, ch, q, []);
  }

  /** Only HEAD begins with H. */
  lemma MethodStarts(m: Method)
    ensures |MethodName(m)| >= 2
    ensures MethodName(m)[0] == 'H' ==> m == HEAD && MethodName(m)[1] == 'E'
  {
  }

  lemma NameStarts(name: Bytes, m: Method)
    requires Names(name, m)
    ensures |name| >= 2 && FirstMethod(name[0]).Some? && (name[0] == 72 ==> m == HEAD && name[1] == 69)
  {
    MethodStarts(m);
    FirstGuess(m);
    hide MethodName, Guess;
  }

  /** A request is read by a parser of either kind as by one made for requests. */
  lemma EitherRequest(p: Parser, m: Method, name: Bytes, rest: Bytes)
    requires MayStart(p, HttpRequest) && Names(name, m) && p.nread + |name| <= MAX_HEADER_SIZE
    ensures RunFrom(Running(p, None, [], 0), name + rest) ==
            RunFrom(Running(MadeFor(p, HttpRequest), None, [], 0), name + rest)
  {
    hide *;
    var q := MadeFor(p, HttpRequest);
    var r, s := Running(p, None, [], 0), Running(q, None, [], 0);
    AlreadyMade(p, HttpRequest);
    if p != q {
      NameStarts(name, m);
      EitherFirst(p, name[0]);
      var k := if name[0] == 72 then 2 else 1;
      if k == 2 {
        EitherSecond(p);
        EitherTwo(p, 69, MethodAt(q, HEAD, 2));
        MethodRuns(q, HEAD, name, 2);
        assert name[..2] == [72, 69];
      } else {
        assert name[..1] == [name[0]];
        OneByte(r, name[0]);
        OneByte(s, name[0]);
        SameByte(p, q, name[0]);
      }
      RunSplit(r, name[..k], name[k..] + rest);
      RunSplit(s, name[..k], name[k..] + rest);
      assert name[..k] + (name[k..] + rest) == name + rest;
    }
  }

  lemma SameByte(p: Parser, q: Parser, ch: byte)
    requires Byte(p, ch) == Byte(q, ch)
    ensures Next(Running(p, None, [], 0), ch) == Next(Running(q, None, [], 0), ch)
  {
    hide Byte;
  }

  lemma AlreadyMade(p: Parser, kind: Type)
    requires MayStart(p, kind) && (kind == HttpRequest || kind == HttpResponse)
    ensures var q := MadeFor(p, kind);
      q.kind == kind && q.state == (if kind == HttpRequest then InRequest(StartReq) else InResponse(StartRes)) &&
      q.nread == p.nread && q.lenient == p.lenient && q.verb == p.verb && SlotOf(p.state) == Outside &&
      (p != q ==> p.state == StartReqOrRes) && (p.kind == kind ==> p == q)
  {
  }

  /** A response likewise. */
  lemma EitherResponse(p: Parser, major: nat, minor: nat, rest: Bytes)
    requires MayStart(p, HttpResponse) && major < 10 && minor < 10 && p.nread + 8 <= MAX_HEADER_SIZE
    ensures RunFrom(Running(p, None, [], 0), Version(major, minor) + rest) ==
            RunFrom(Running(MadeFor(p, HttpResponse), None, [], 0), Version(major, minor) + rest)
  {
    hide *;
    var q, t := MadeFor(p, HttpResponse), Version(major, minor);
    var r, s := Running(p, None, [], 0), Running(q, None, [], 0);
    AlreadyMade(p, HttpResponse);
    if p != q {
      EitherSecond(p);
      EitherTwo(p, 84, StatusAt(q, major, minor, 2));
      StatusVersionRuns(q, major, minor, 2);
      VersionTwo(major, minor);
      RunSplit(r, t[..2], t[2..] + rest);
      RunSplit(s, t[..2], t[2..] + rest);
      assert t[..2] + (t[2..] + rest) == t + rest;
    }
  }

  lemma VersionTwo(major: nat, minor: nat)
    requires major < 10 && minor < 10
    ensures |Version(major, minor)| == 8 && Version(major, minor)[..2] == [72, 84]
  {
  }
}
