/** Many messages on one connection, one right after another. */
module HttpConversations {
  import opened Bytes
  import opened Decimals
  import opened HttpTypes
  import opened HttpTurn
  import opened HttpRun
  import opened HttpCut
  import opened HttpExecute
  import opened HttpChunks
  import opened HttpLengths
  import opened HttpTrailers
  import opened HttpHeads
  import opened HttpStarts
  import opened HttpMessages
  import C = HttpCompose

  // ----- requests

  /** Another message may follow the request: its fields keep the connection, and no other protocol
      follows. */
  ghost predicate LetsGoOn(m: Request) {
    && Alive(m.start.major, m.start.minor, m.fields + TrailerOf(m.body)) && !m.body.UntilEnd?
    && !Switches(HttpRequest, m.start.verb, 0, m.fields)
  }

  /** Proper requests, each but the last with another after it. The trailer of one counts with the
      header of the next. */
  ghost predicate ProperRequests(ms: seq<Request>, lenient: bool, nread: nat)
    decreases |ms|
  {
    ms == [] ||
    (ProperRequest(ms[0], lenient) && nread + RequestHead(ms[0]) <= MAX_HEADER_SIZE &&
     (|ms| > 1 ==> LetsGoOn(ms[0])) && ProperRequests(ms[1..], lenient, StillCounted(ms[0].body)))
  }

  ghost function RequestsText(ms: seq<Request>): Bytes
    requires forall m <- ms :: ProperRequestLine(m.start)
  {
    if ms == [] then [] else RequestText(ms[0]) + RequestsText(ms[1..])
  }

  function RequestsEvents(ms: seq<Request>): seq<Event> {
    if ms == [] then [] else RequestEvents(ms[0]) + RequestsEvents(ms[1..])
  }

  /** A request that lets the connection go on, wherever in a run. */
  lemma OneRequest(p: Parser, m: Request, ev: seq<Event>, n: nat) returns (q: Parser)
    requires MayStart(p, HttpRequest) && ProperRequest(m, p.lenient) && p.nread + RequestHead(m) <= MAX_HEADER_SIZE
    requires LetsGoOn(m)
    ensures RunFrom(Running(p, None, ev, n), RequestText(m)) ==
            Running(q, None, ev + RequestEvents(m), n + |RequestText(m)|)
    ensures MayStart(q, HttpRequest) && q.lenient == p.lenient && q.nread == StillCounted(m.body)
  {
    hide *;
    RequestParts(m, p.lenient);
    var d := RequestFinishes(p, m);
    var r := RunFrom(Running(p, None, [], 0), RequestText(m));
    GoneOn(r, d, m);
    q := r.p;
    Prepended(p, m, q, ev, n);
  }

  lemma GoneOn(r: Run, d: Parser, m: Request)
    requires ProperRequestLine(m.start) && d.kind == HttpRequest && LetsGoOn(m)
    requires Finished(r, d, Alive(m.start.major, m.start.minor, m.fields + TrailerOf(m.body)),
                      Switches(HttpRequest, m.start.verb, 0, m.fields), m.body,
                      [MessageBegin, Data(UrlText, C.Written(m.start.url))] + TrailerEvents(m.fields), |RequestText(m)|)
    ensures r.Running? && r == Running(r.p, None, RequestEvents(m), |RequestText(m)|)
    ensures MayStart(r.p, HttpRequest) && r.p.lenient == d.lenient && r.p.nread == StillCounted(m.body)
  {
    hide RequestText, Alive, Switches, TrailerEvents, TrailedEvents;
  }

  lemma Prepended(p: Parser, m: Request, q: Parser, ev: seq<Event>, n: nat)
    requires ProperRequestLine(m.start)
    requires RunFrom(Running(p, None, [], 0), RequestText(m)) ==
             Running(q, None, RequestEvents(m), |RequestText(m)|)
    ensures RunFrom(Running(p, None, ev, n), RequestText(m)) ==
            Running(q, None, ev + RequestEvents(m), n + |RequestText(m)|)
  {
    hide RunFrom, RequestText;
    RunPrepend(ev, n, Running(p, None, [], 0), RequestText(m));
    assert ev + [] == ev;
  }

  /** What a call under way makes of more requests. */
  lemma {:induction false} RequestsRun(p: Parser, ms: seq<Request>, ev: seq<Event>, n: nat)
    requires MayStart(p, HttpRequest) && ms != [] && ProperRequests(ms, p.lenient, p.nread)
    requires forall m <- ms :: ProperRequestLine(m.start)
    ensures var r := Flush(RunFrom(Running(p, None, ev, n), RequestsText(ms)));
      !r.Failed? && r.read == n + |RequestsText(ms)| && r.events == ev + RequestsEvents(ms)
    decreases |ms|
  {
    hide RunFrom, Flush, RequestText, RequestEvents, ProperRequest, RequestHead, LetsGoOn, ProperRequestLine, MayStart;
    var m, rest := ms[0], ms[1..];
    if |ms| == 1 {
      assert RequestsText(ms) == RequestText(m) + [] == RequestText(m);
      assert RequestsEvents(ms) == RequestEvents(m) + [] == RequestEvents(m);
      LastRequest(p, m, ev, n);
    } else {
      var q := OneRequest(p, m, ev, n);
      RunSplit(Running(p, None, ev, n), RequestText(m), RequestsText(rest));
      RequestsRun(q, rest, ev + RequestEvents(m), n + |RequestText(m)|);
      assert ev + RequestEvents(m) + RequestsEvents(rest) == ev + RequestsEvents(ms);
    }
  }

  lemma LastRequest(p: Parser, m: Request, ev: seq<Event>, n: nat)
    requires MayStart(p, HttpRequest) && ProperRequest(m, p.lenient) && p.nread + RequestHead(m) <= MAX_HEADER_SIZE
    ensures var r := Flush(RunFrom(Running(p, None, ev, n), RequestText(m)));
      !r.Failed? && r.read == n + |RequestText(m)| && r.events == ev + RequestEvents(m)
  {
    RequestRead(p, m);
    SlotAtStart(p);
    hide RunFrom, RequestText, RequestEvents, RequestHead, MayStart, Switches, Alive, After;
    RunPrepend(ev, n, Running(p, None, [], 0), RequestText(m));
    assert ev + [] == ev && Start(p) == Running(p, None, [], 0);
    var r := RunFrom(Running(p, None, [], 0), RequestText(m));
    FlushPrepended(ev, n, r);
  }

  lemma FlushPrepended(ev: seq<Event>, n: nat, r: Run)
    ensures Flush(Prepend(ev, n, r)) == Prepend(ev, n, Flush(r))
  {
    if r.Running? { assert ev + r.events + Pending(r.open) == ev + (r.events + Pending(r.open)); }
  }

  /** Any number of requests, one right after another, are told one after another, each as it was
      sent: nothing of one is left in the next. */
  lemma RequestsRead(p: Parser, ms: seq<Request>)
    requires MayStart(p, HttpRequest) && ms != [] && ProperRequests(ms, p.lenient, p.nread)
    requires forall m <- ms :: ProperRequestLine(m.start)
    ensures var r := Call(p, RequestsText(ms));
      !r.Failed? && r.read == |RequestsText(ms)| && r.events == RequestsEvents(ms)
  {
    hide *;
    SlotAtStart(p);
    RequestsRun(p, ms, [], 0);
    CallIs(p, RequestsText(ms));
    assert [] + RequestsEvents(ms) == RequestsEvents(ms);
  }

  lemma CallIs(p: Parser, text: Bytes)
    requires SlotOf(p.state).Outside?
    ensures Call(p, text) == Flush(RunFrom(Running(p, None, [], 0), text))
  {
    hide RunFrom;
  }

  // ----- what follows the last request

  /** Data of another protocol is left where it begins. */
  lemma OtherProtocol(p: Parser, m: Request, rest: Bytes)
    requires MayStart(p, HttpRequest) && ProperRequest(m, p.lenient) && p.nread + RequestHead(m) <= MAX_HEADER_SIZE
    requires Switches(HttpRequest, m.start.verb, 0, m.fields) && !m.body.UntilEnd?
    ensures var r := Call(p, RequestText(m) + rest);
      r.Stopped? && r.read == |RequestText(m)| && r.events == RequestEvents(m)
  {
    RequestRead(p, m);
    SlotAtStart(p);
    hide RunFrom, RequestText, RequestEvents, RequestHead, MayStart, Switches, Alive, After;
    RunSplit(Start(p), RequestText(m), rest);
    Absorbed(RunFrom(Start(p), RequestText(m)), rest);
  }

  /** After a request that ends the connection, line ends are passed over and anything else is an
      error. */
  lemma NothingMore(p: Parser, m: Request, ch: byte, rest: Bytes)
    requires MayStart(p, HttpRequest) && ProperRequest(m, p.lenient) && p.nread + RequestHead(m) <= MAX_HEADER_SIZE
    requires !Alive(m.start.major, m.start.minor, m.fields + TrailerOf(m.body)) && !m.body.UntilEnd?
    requires !Switches(HttpRequest, m.start.verb, 0, m.fields) && ch != CR && ch != LF
    ensures var r := Call(p, RequestText(m) + ([ch] + rest));
      r.Failed? && r.read == |RequestText(m)| && r.events == RequestEvents(m) &&
      r.errno == if StillCounted(m.body) < MAX_HEADER_SIZE then ClosedConnection else HeaderOverflow
  {
    hide *;
    RequestParts(m, p.lenient);
    SlotAtStart(p);
    var d := RequestFinishes(p, m);
    var r0, text := Running(p, None, [], 0), RequestText(m);
    var r := RunFrom(r0, text);
    Closed(r, d, m);
    RunSplit(r0, text, [ch] + rest);
    RunSplit(r, [ch], rest);
    OneByte(r, ch);
    DeadByte(r, ch);
    Absorbed(Next(r, ch), rest);
    FailedCall(p, text + ([ch] + rest));
  }

  lemma Closed(r: Run, d: Parser, m: Request)
    requires ProperRequestLine(m.start) && d.kind == HttpRequest && !m.body.UntilEnd?
    requires !Alive(m.start.major, m.start.minor, m.fields + TrailerOf(m.body))
    requires !Switches(HttpRequest, m.start.verb, 0, m.fields)
    requires Finished(r, d, Alive(m.start.major, m.start.minor, m.fields + TrailerOf(m.body)),
                      Switches(HttpRequest, m.start.verb, 0, m.fields), m.body,
                      [MessageBegin, Data(UrlText, C.Written(m.start.url))] + TrailerEvents(m.fields), |RequestText(m)|)
    ensures r.Running? && r == Running(r.p, None, RequestEvents(m), |RequestText(m)|)
    ensures r.p.state == Dead && r.p.nread == StillCounted(m.body)
  {
    hide RequestText, Alive, Switches, TrailerEvents, TrailedEvents;
  }

  lemma DeadByte(r: Run, ch: byte)
    requires r.Running? && r.p.state == Dead && r.open == None && ch != CR && ch != LF
    ensures Next(r, ch) == Failed(if r.p.nread < MAX_HEADER_SIZE then ClosedConnection else HeaderOverflow, None,
                                  r.events, r.read)
  {
    assert r.events + [] + [] == r.events;
  }

  // ----- sessions

  /** A session that receives any number of requests in whatever pieces. */
  method ReceiveRequests(parser: HttpParser, pieces: seq<Bytes>, ghost ms: seq<Request>) returns (read: nat)
    requires parser.Valid() && parser.errno.None? && MayStart(parser.it, HttpRequest)
    requires ms != [] && ProperRequests(ms, parser.it.lenient, parser.it.nread)
    requires forall m <- ms :: ProperRequestLine(m.start)
    requires pieces != [] && AllHaveData(pieces) && Flatten(pieces) == RequestsText(ms)
    requires forall k :: 0 <= k < |pieces| ==> |pieces[k]| <= MAX_DATA
    modifies parser
    ensures parser.Valid() && parser.errno.None? && read == |Flatten(pieces)| && old(parser.told) <= parser.told
    ensures Join(parser.told[|old(parser.told)|..]) == Join(RequestsEvents(ms))
  {
    hide *;
    RequestsRead(parser.it, ms);
    ghost var before, whole := parser.told, Call(parser.it, RequestsText(ms));
    read := parser.ExecuteAll(pieces);
    DeliveredWhole(parser, whole, |Flatten(pieces)|, read, before);
  }
}
