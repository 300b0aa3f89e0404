/** One call of http_parser_execute, and how calls compose: cutting the input elsewhere
    changes neither the parser nor, once adjacent data of one kind is joined, what the
    callbacks are told. */
module HttpRun {
  import opened Bytes
  import opened HttpTypes
  import opened HttpTurn

  /** The data since the mark that is set. The code has five marks; at most one is ever set. */
  datatype Piece = Piece(kind: Kind, bytes: Bytes)

  /** A call under way; stopped after `read` bytes, because another protocol follows; or
      failed at the byte after them, with the data under way never told. */
  datatype Run =
    | Running(p: Parser, open: Option<Piece>, events: seq<Event>, read: nat)
    | Stopped(p: Parser, events: seq<Event>, read: nat)
    | Failed(errno: Errno, open: Option<Piece>, events: seq<Event>, read: nat)

  function Perform(open: Option<Piece>, op: Op, ch: byte): (Option<Piece>, seq<Event>) {
    var held := if open.Some? && open.value.kind == op.kind then open.value else Piece(op.kind, []);
    match op
    case Open(_) => (Some(held), [])
    case Close(k) => if open.Some? && open.value.kind == k then (None, [Data(k, held.bytes)]) else (open, [])
    case Empty(k) => (None, [Data(k, held.bytes)])
    case Finish(k) => (None, [Data(k, held.bytes + [ch])])
  }

  function PerformAll(open: Option<Piece>, ops: seq<Op>, ch: byte): (Option<Piece>, seq<Event>)
    decreases |ops|
  {
    if ops == [] then (open, [])
    else
      var (o, es) := Perform(open, ops[0], ch);
      var (o', es') := PerformAll(o, ops[1..], ch);
      (o', es + es')
  }

  /** The data under way takes in the byte. */
  function Grow(open: Option<Piece>, ch: byte): Option<Piece> {
    match open
    case None => None
    case Some(d) => Some(Piece(d.kind, d.bytes + [ch]))
  }

  function Next(r: Run, ch: byte): Run {
    match r
    case Running(p, open, events, read) =>
      (match Byte(p, ch)
       case Go(q, ops, notes) =>
         var (o, es) := PerformAll(open, ops, ch);
         Running(q, Grow(o, ch), events + es + notes, read + 1)
       case Quit(q, ops, notes) => Stopped(q, events + PerformAll(open, ops, ch).1 + notes, read + 1)
       case Failing(e, ops, notes) =>
         var (o, es) := PerformAll(open, ops, ch);
         Failed(e, o, events + es + notes, read))
    case other => other
  }

  function RunFrom(r: Run, data: Bytes): Run {
    if data == [] then r else Next(RunFrom(r, data[..|data| - 1]), data[|data| - 1])
  }

  /** What may be under way in a state: nothing; the data whose mark is set again on entry;
      or body data, whose mark is set again only by its next byte. */
  datatype Slot = Outside | Inside(kind: Kind) | InBody

  function SlotOf(s: State): Slot {
    match s
    case HeaderField => Inside(HeaderFieldText)
    case HeaderValue => Inside(HeaderValueText)
    case InResponse(r) => if r.ResStatus? then Inside(StatusText) else Outside
    case InUrl(_) => Inside(UrlText)
    case InChunk(c) => if c.ChunkData? || c.ChunkDataAlmostDone? then InBody else Outside
    case BodyIdentity | BodyIdentityEof => InBody
    case _ => Outside
  }

  function Start(p: Parser): Run {
    Running(p, match SlotOf(p.state) case Inside(k) => Some(Piece(k, [])) case _ => None, [], 0)
  }

  function Pending(open: Option<Piece>): seq<Event> {
    match open
    case Some(d) => [Data(d.kind, d.bytes)]
    case None => []
  }

  /** The callback for a mark left over at the end of the data. */
  function Flush(r: Run): Run {
    if r.Running? then Running(r.p, None, r.events + Pending(r.open), r.read) else r
  }

  /** http_parser_execute on `data`, which is not empty. */
  function Call(p: Parser, data: Bytes): Run {
    Flush(RunFrom(Start(p), data))
  }

  // ----- joining adjacent data

  function Add(stream: seq<Event>, e: Event): seq<Event> {
    if stream != [] && e.Data? && stream[|stream| - 1].Data? && stream[|stream| - 1].kind == e.kind then
      stream[..|stream| - 1] + [Data(e.kind, stream[|stream| - 1].bytes + e.bytes)]
    else stream + [e]
  }

  function AddAll(stream: seq<Event>, es: seq<Event>): seq<Event>
    decreases |es|
  {
    if es == [] then stream else AddAll(Add(stream, es[0]), es[1..])
  }

  /** The events, with adjacent data of one kind joined. */
  function Join(es: seq<Event>): seq<Event> {
    AddAll([], es)
  }

  lemma {:induction false} AddAllSplit(s: seq<Event>, a: seq<Event>, b: seq<Event>)
    ensures AddAll(s, a + b) == AddAll(AddAll(s, a), b)
    decreases |a|
  {
    if a == [] {
      assert a + b == b;
    } else {
      assert (a + b)[1..] == a[1..] + b;
      AddAllSplit(Add(s, a[0]), a[1..], b);
    }
  }

  lemma JoinSplit(a: seq<Event>, b: seq<Event>)
    ensures Join(a + b) == AddAll(Join(a), b)
  {
    AddAllSplit([], a, b);
  }

  lemma AddTwice(s: seq<Event>, k: Kind, x: Bytes, y: Bytes)
    ensures Add(Add(s, Data(k, x)), Data(k, y)) == Add(s, Data(k, x + y))
  {
    var one := Add(s, Data(k, x));
    var n := |one| - 1;
    assert one[..n] == if n == |s| then s else s[..n];
    if n < |s| {
      assert s[n].bytes + x + y == s[n].bytes + (x + y);
    }
  }

  lemma JoinCongruence(a: seq<Event>, b: seq<Event>, c: seq<Event>)
    requires Join(a) == Join(b)
    ensures Join(a + c) == Join(b + c)
  {
    JoinSplit(a, c);
    JoinSplit(b, c);
  }

  // ----- one byte, whatever was pending

  /** What may be pending in a state. */
  predicate Compatible(z: Slot, open: Option<Piece>) {
    match z
    case Outside => open.None?
    case Inside(k) => open.Some? && open.value.kind == k
    case InBody => open.Some? ==> open.value.kind == BodyText
  }

  /** Where bytes of kind `k` may be data. */
  predicate Holds(z: Slot, k: Kind) {
    z == Inside(k) || (z.InBody? && k == BodyText)
  }

  /** The seven things a turn can do with the marks. */
  ghost predicate Shape(z: Slot, ops: seq<Op>, notes: seq<Event>, z': Slot) {
    if ops == [] then
      if z.Outside? then !z'.Inside? else z.Inside? && z' == z && notes == []
    else if |ops| == 1 then
      match ops[0]
      case Open(k) => notes == [] && (z.Outside? || (z.InBody? && k == BodyText)) && Holds(z', k)
      case Close(k) => Holds(z, k) && !z'.Inside?
      case Empty(k) => z.Outside? && !z'.Inside?
      case Finish(k) => z.InBody? && k == BodyText && !z'.Inside?
    else
      ops == [Empty(HeaderValueText), Open(HeaderFieldText)] && z.Outside? && notes == [] &&
      z' == Inside(HeaderFieldText)
  }

  /** What a failing turn may have told: nothing, unless no data was under way. */
  ghost predicate FailShape(z: Slot, ops: seq<Op>, notes: seq<Event>) {
    if z.Outside? then ops == [] || ops == [Empty(HeaderValueText)] else ops == [] && notes == []
  }

  ghost predicate Shaped(s: State, t: Turn) {
    match t
    case Go(q, ops, notes) => Shape(SlotOf(s), ops, notes, SlotOf(q.state))
    case Quit(q, ops, notes) => Shape(SlotOf(s), ops, notes, Outside) && SlotOf(q.state).Outside?
    case Failing(_, ops, notes) => FailShape(SlotOf(s), ops, notes)
  }

  /** A turn that leaves no data under way and does nothing with the marks. */
  ghost predicate Silent(t: Turn) {
    t.ops == [] && (!t.Failing? ==> !SlotOf(t.p.state).Inside? && (t.Quit? ==> !SlotOf(t.p.state).InBody?))
  }

  /** A turn that fails before it does anything else. */
  ghost predicate Bare(t: Turn) {
    t.Failing? && t == Fail(t.errno)
  }

  lemma ResponseShape(p: Parser, r: ResState, ch: byte)
    ensures Shaped(InResponse(r), ResponseLine(p, r, ch))
  {
  }

  lemma RequestShape(p: Parser, q: ReqState, ch: byte)
    ensures Shaped(InRequest(q), RequestLine(p, q, ch))
  {
    hide MethodName, FirstMethod, Switched, ParseUrlChar;
  }

  lemma UrlShape(p: Parser, u: UrlState, ch: byte)
    ensures Shaped(InUrl(u), Url(p, u, ch))
  {
    hide ParseUrlChar;
  }

  lemma NewMessageOutside(p: Parser)
    ensures SlotOf(NewMessage(p)).Outside?
  {
    hide ShouldKeepAlive;
  }

  lemma AllDoneSilent(p: Parser, ch: byte, notes: seq<Event>)
    ensures Silent(AllDone(p, ch, notes))
  {
    hide NeedsEof, NewMessage;
    NewMessageOutside(p.(nread := 0));
  }

  lemma AlmostDoneSilent(p: Parser, ch: byte)
    ensures Silent(AlmostDone(p, ch))
  {
    hide AllDone, NewMessage;
    NewMessageOutside(p);
    AllDoneSilent(Upgrading(p), ch, [HeadersComplete]);
  }

  lemma FieldStartShape(p: Parser, ch: byte)
    ensures var t := FieldStart(p, ch);
            Silent(t) || (t.Go? && t.ops == [Open(HeaderFieldText)] && t.notes == [] && t.p.state == HeaderField)
  {
    hide AlmostDone, TokenOf;
    AlmostDoneSilent(p, ch);
  }

  lemma FieldStartShaped(s: State, p: Parser, ch: byte)
    requires SlotOf(s).Outside?
    ensures Shaped(s, FieldStart(p, ch))
  {
    hide FieldStart;
    FieldStartShape(p, ch);
  }

  lemma EmptyValueShape(s: State, p: Parser, ch: byte)
    requires SlotOf(s).Outside?
    ensures Shaped(s, Before([Empty(HeaderValueText)], FieldStart(p, ch)))
  {
    hide FieldStart;
    FieldStartShape(p, ch);
    var t := FieldStart(p, ch);
    assert t.ops == [] ==> [Empty(HeaderValueText)] + t.ops == [Empty(HeaderValueText)];
    assert t.ops != [] ==> [Empty(HeaderValueText)] + t.ops == [Empty(HeaderValueText), Open(HeaderFieldText)];
  }

  lemma FieldShape(p: Parser, ch: byte)
    ensures Shaped(HeaderField, Field(p, ch))
  {
    hide FieldChar, TokenOf;
  }

  lemma ValueCharStays(p: Parser, ch: byte)
    ensures var t := ValueChar(p, ch); Bare(t) || (t.Go? && t.ops == [] && t.notes == [] && t.p.state == HeaderValue)
  {
    hide MatchWord, TokenOf;
  }

  lemma ValueShape(p: Parser, ch: byte)
    ensures Shaped(HeaderValue, Value(p, ch))
  {
    hide ValueChar;
    ValueCharStays(p, ch);
  }

  lemma ValueStartShape(p: Parser, ch: byte)
    ensures var t := ValueStart(p, ch);
            Bare(t) || (t.Go? && t.ops == [Open(HeaderValueText)] && t.notes == [] && t.p.state == HeaderValue)
  {
  }

  lemma BetweenShape(p: Parser, a: AroundState, ch: byte)
    ensures Shaped(AroundValue(a), BetweenValues(p, a, ch))
  {
    hide FieldStart, SetFlags, ValueStart, Before;
    EmptyValueShape(AroundValue(a), SetFlags(p), ch);
    FieldStartShaped(AroundValue(a), SetFlags(p), ch);
    ValueStartShape(p, ch);
    ValueStartShape(p.(headerState := ContentLengthWs), ch);
  }

  lemma FinalShape(p: Parser, e: EndState, ch: byte)
    ensures Shaped(Ending(e), Final(p, e, ch))
  {
    hide FieldStart, AlmostDone, AllDone, NewMessage;
    FieldStartShaped(Ending(e), p, ch);
    AlmostDoneSilent(p, ch);
    AllDoneSilent(p, ch, []);
    NewMessageOutside(p);
  }

  lemma ChunkShape(p: Parser, c: ChunkState, ch: byte)
    ensures Shaped(InChunk(c), Chunk(p, c, ch))
  {
  }

  lemma BodyShape(p: Parser, ch: byte)
    requires p.state.BodyIdentity? || p.state.BodyIdentityEof?
    ensures Shaped(p.state, Body(p, ch))
  {
    hide NewMessage;
    NewMessageOutside(p.(contentLength := 0));
  }

  lemma StartShape(p: Parser, ch: byte)
    ensures Shaped(Dead, if ch == CR || ch == LF then To(p, Dead) else Fail(ClosedConnection))
    ensures Shaped(StartReqOrRes, StartEither(p, ch)) && Shaped(ResOrRespH, HeadOrHttp(p, ch))
  {
    hide FirstMethod;
  }

  lemma ByteShape(p: Parser, ch: byte)
    ensures Shaped(p.state, Byte(p, ch))
  {
    hide Shape, ResponseLine, RequestLine, Url, Field, Value, BetweenValues, Final, Chunk, Body, StartEither,
      HeadOrHttp;
    var q := if ParsingHeader(p.state) then p.(nread := p.nread + 1) else p;
    match p.state {
      case InResponse(r) => ResponseShape(q, r, ch);
      case InRequest(r) => RequestShape(q, r, ch);
      case InUrl(u) => UrlShape(q, u, ch);
      case HeaderField => FieldShape(q, ch);
      case HeaderValue => ValueShape(q, ch);
      case AroundValue(a) => BetweenShape(q, a, ch);
      case Ending(e) => FinalShape(q, e, ch);
      case InChunk(c) => ChunkShape(q, c, ch);
      case BodyIdentity | BodyIdentityEof => BodyShape(q, ch);
      case _ => StartShape(q, ch);
    }
  }
}
