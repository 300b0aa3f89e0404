/** Chunked transfer coding (section 4.1 of RFC 7230) as a sender writes it, and the proof
    that the parser undoes it, however the text is cut into calls. */
module HttpChunks {
  import opened Bytes
  import opened HttpTypes
  import opened HttpTurn
  import opened HttpRun
  import opened HttpCut
  import opened HttpFraming
  import opened HttpExecute

  /** One chunk: its size in hexadecimal, its extension, its payload. */
  datatype ChunkText = ChunkText(size: Bytes, extension: Bytes, payload: Bytes)

  predicate AllHex(ds: Bytes) {
    forall k :: 0 <= k < |ds| ==> IsHex(ds[k])
  }

  function HexDigit(c: byte): nat
    requires IsHex(c)
  {
    if IsDigit(c) then c - 48 else Lower(c) - 87
  }

  /** The number that hexadecimal digits denote. */
  function HexValue(ds: Bytes): nat
    requires AllHex(ds)
  {
    if ds == [] then 0 else HexValue(ds[..|ds| - 1]) * 16 + HexDigit(ds[|ds| - 1])
  }

  /** What the parser takes for digits of a size: besides the hexadecimal digits every byte of
      the table's upper half, as 0. */
  predicate AllTaken(s: Bytes) {
    forall k :: 0 <= k < |s| ==> IsHex(s[k]) || s[k] >= 128
  }

  /** The number the parser reads. */
  function SizeRead(s: Bytes): nat
    requires AllTaken(s)
  {
    if s == [] then 0 else SizeRead(s[..|s| - 1]) * 16 + Unhex(s[|s| - 1])
  }

  lemma UnhexIs(c: byte)
    requires IsHex(c) || c >= 128
    ensures Unhex(c) == if IsHex(c) then HexDigit(c) else 0
    ensures IsHex(c) ==> c < 128
  {
  }

  lemma {:induction false} DigitsOnly(s: Bytes)
    requires AllHex(s)
    ensures AllTaken(s) && SizeRead(s) == HexValue(s)
    decreases |s|
  {
    hide IsHex, HexDigit, Unhex;
    if s != [] {
      DigitsOnly(s[..|s| - 1]);
      UnhexIs(s[|s| - 1]);
    }
  }

  /** The hexadecimal digits among the bytes. */
  function DigitsOf(s: Bytes): (ds: Bytes)
    ensures AllHex(ds)
  {
    if s == [] then [] else DigitsOf(s[..|s| - 1]) + if IsHex(s[|s| - 1]) then [s[|s| - 1]] else []
  }

  /** No digit but 0 stands before a byte of the upper half. */
  ghost predicate HighBytesLead(s: Bytes) {
    forall i, j :: 0 <= i < j < |s| && s[j] >= 128 ==> Unhex(s[i]) == 0
  }

  lemma {:induction false} ZeroRead(s: Bytes)
    requires AllTaken(s)
    ensures SizeRead(s) == 0 <==> forall i :: 0 <= i < |s| ==> Unhex(s[i]) == 0
    decreases |s|
  {
    hide Unhex, IsHex;
    if s != [] {
      var k := |s| - 1;
      UnhexIs(s[k]);
      ZeroRead(s[..k]);
      assert forall i :: 0 <= i < k ==> s[..k][i] == s[i];
    }
  }

  /** The number read is the one the hexadecimal digits denote exactly when no digit but 0
      stands before a byte of the upper half; otherwise it is larger. */
  lemma {:induction false} SizeReadIsDenoted(s: Bytes)
    requires AllTaken(s)
    ensures SizeRead(s) >= HexValue(DigitsOf(s))
    ensures SizeRead(s) == HexValue(DigitsOf(s)) <==> HighBytesLead(s)
    decreases |s|
  {
    hide Unhex, IsHex, HexDigit, HexValue, HighBytesLead;
    if s == [] {
      NothingRead();
    } else {
      var k := |s| - 1;
      SizeReadIsDenoted(s[..k]);
      UnhexIs(s[k]);
      ZeroRead(s[..k]);
      MoreLead(s);
      if IsHex(s[k]) {
        MoreDigits(DigitsOf(s[..k]), s[k]);
      } else {
        assert DigitsOf(s) == DigitsOf(s[..k]);
      }
    }
  }

  lemma NothingRead()
    ensures SizeRead([]) == HexValue(DigitsOf([])) == 0 && HighBytesLead([])
  {
  }

  lemma MoreDigits(ds: Bytes, c: byte)
    requires AllHex(ds) && IsHex(c)
    ensures HexValue(ds + [c]) == HexValue(ds) * 16 + HexDigit(c)
  {
    hide IsHex, HexDigit;
    assert (ds + [c])[..|ds|] == ds;
  }

  lemma MoreLead(s: Bytes)
    requires AllTaken(s) && s != []
    ensures var k := |s| - 1;
            HighBytesLead(s) <==>
            HighBytesLead(s[..k]) && (s[k] >= 128 ==> forall i :: 0 <= i < k ==> Unhex(s[..k][i]) == 0)
  {
    hide Unhex, IsHex;
    var k := |s| - 1;
    assert forall i :: 0 <= i < k ==> s[..k][i] == s[i];
  }

  /** The largest chunk size the parser takes: 2^64 - 17. */
  const MAX_CHUNK: nat := HEX_LIMIT * 16 + 15

  /** Nothing, or a semicolon or space and then anything but CR. */
  predicate Extension(x: Bytes) {
    x == [] || ((x[0] == 59 || x[0] == SPACE) && forall k :: 1 <= k < |x| ==> x[k] != CR)
  }

  predicate WellSized(c: ChunkText) {
    c.size != [] && AllHex(c.size) && HexValue(c.size) == |c.payload| <= MAX_CHUNK && Extension(c.extension) &&
    |c.size| + |c.extension| + 2 <= MAX_HEADER_SIZE
  }

  const CRLF: Bytes := [CR, LF]

  function Line(c: ChunkText): Bytes {
    c.size + c.extension + CRLF
  }

  function Encoded(c: ChunkText): Bytes {
    Line(c) + c.payload + CRLF
  }

  /** Chunks with data, then the last chunk, which has none, and no trailer. */
  function EncodedBody(chunks: seq<ChunkText>, last: ChunkText): Bytes {
    if chunks == [] then Line(last) + CRLF else Encoded(chunks[0]) + EncodedBody(chunks[1..], last)
  }

  function ChunkEvents(c: ChunkText): seq<Event> {
    [ChunkHeader(|c.payload|), Data(BodyText, c.payload), ChunkComplete]
  }

  function EventsOf(chunks: seq<ChunkText>): seq<Event> {
    if chunks == [] then [ChunkHeader(0), ChunkComplete, MessageComplete]
    else ChunkEvents(chunks[0]) + EventsOf(chunks[1..])
  }

  // ----- one byte at a time

  lemma Quietly(q: Parser, ev: seq<Event>, n: nat, ch: byte, q': Parser, notes: seq<Event>)
    requires Byte(q, ch) == Go(q', [], notes)
    ensures Next(Running(q, None, ev, n), ch) == Running(q', None, ev + notes, n + 1)
  {
    hide Byte;
    assert ev + [] + notes == ev + notes;
  }

  lemma DigitStep(q: Parser, ev: seq<Event>, n: nat, ch: byte)
    requires q.state == InChunk(ChunkSize) && q.flags.chunked && q.nread < MAX_HEADER_SIZE && (IsHex(ch) || ch >= 128)
    ensures Next(Running(q, None, ev, n), ch) ==
            if HEX_LIMIT < q.contentLength then Failed(InvalidContentLength, None, ev, n)
            else Running(q.(contentLength := q.contentLength * 16 + Unhex(ch), nread := q.nread + 1), None, ev, n + 1)
  {
    NextDigit(q, ch);
    hide Byte, Unhex, IsHex, HEX_LIMIT;
    assert ev + [] == ev;
    if q.contentLength <= HEX_LIMIT {
      Quietly(q, ev, n, ch, q.(contentLength := q.contentLength * 16 + Unhex(ch), nread := q.nread + 1), []);
    }
  }

  lemma {:induction false} DigitsRun(q: Parser, ds: Bytes, ev: seq<Event>, n: nat)
    requires ds != [] && AllTaken(ds)
    requires q.state == InChunk(ChunkSizeStart) && q.flags.chunked && q.nread == 0 && |ds| <= MAX_HEADER_SIZE
    ensures var r := RunFrom(Running(q, None, ev, n), ds);
            if SizeRead(ds) <= MAX_CHUNK then
              r == Running(q.(state := InChunk(ChunkSize), contentLength := SizeRead(ds), nread := |ds|), None, ev,
                           n + |ds|)
            else r.Failed? && r == Failed(InvalidContentLength, None, ev, r.read)
    decreases |ds|
  {
    hide Byte, Unhex, IsHex;
    var r, k := Running(q, None, ev, n), |ds| - 1;
    assert ev + [] == ev;
    if k == 0 {
      assert ds[..0] == [];
      FirstDigit(q, ds[0]);
      Quietly(q, ev, n, ds[0], q.(state := InChunk(ChunkSize), contentLength := Unhex(ds[0]), nread := 1), []);
    } else {
      DigitsRun(q, ds[..k], ev, n);
      var v := SizeRead(ds[..k]);
      if v <= MAX_CHUNK {
        var q' := q.(state := InChunk(ChunkSize), contentLength := v, nread := k);
        DigitStep(q', ev, n + k, ds[k]);
      }
    }
  }

  lemma FirstDigit(q: Parser, ch: byte)
    requires q.state == InChunk(ChunkSizeStart) && q.flags.chunked && q.nread == 0 && (IsHex(ch) || ch >= 128)
    ensures Byte(q, ch) == Go(q.(state := InChunk(ChunkSize), contentLength := Unhex(ch), nread := 1), [], [])
  {
  }

  lemma NextDigit(q: Parser, ch: byte)
    requires q.state == InChunk(ChunkSize) && q.flags.chunked && q.nread < MAX_HEADER_SIZE && (IsHex(ch) || ch >= 128)
    ensures Byte(q, ch) == if HEX_LIMIT < q.contentLength then Fail(InvalidContentLength)
                           else Go(q.(contentLength := q.contentLength * 16 + Unhex(ch), nread := q.nread + 1), [], [])
  {
  }

  lemma LineByte(q: Parser, c: ChunkState, ch: byte)
    requires q.state == InChunk(c) && (c.ChunkSize? || c.ChunkParameters?) && q.flags.chunked &&
             q.nread < MAX_HEADER_SIZE
    requires if ch == CR then true else c.ChunkParameters? || ch == 59 || ch == SPACE
    ensures Byte(q, ch) == Go(q.(state := InChunk(if ch == CR then ChunkSizeAlmostDone else ChunkParameters),
                                 nread := q.nread + 1), [], [])
  {
  }

  lemma {:induction false} ExtensionRun(q: Parser, x: Bytes, ev: seq<Event>, n: nat)
    requires Extension(x) && q.state == InChunk(ChunkSize) && q.flags.chunked && q.nread + |x| <= MAX_HEADER_SIZE
    ensures RunFrom(Running(q, None, ev, n), x) ==
            Running(q.(state := InChunk(if x == [] then ChunkSize else ChunkParameters), nread := q.nread + |x|),
                    None, ev, n + |x|)
    decreases |x|
  {
    hide Byte;
    if x != [] {
      var k := |x| - 1;
      ExtensionRun(q, x[..k], ev, n);
      var q' := q.(state := InChunk(if k == 0 then ChunkSize else ChunkParameters), nread := q.nread + k);
      LineByte(q', if k == 0 then ChunkSize else ChunkParameters, x[k]);
      Quietly(q', ev, n + k, x[k], q'.(state := InChunk(ChunkParameters), nread := q.nread + k + 1), []);
      assert ev + [] == ev;
    }
  }

  /** Where a chunk's line leaves the parser. */
  function AfterLine(q: Parser, size: nat): Parser {
    if size == 0 then q.(nread := 0, contentLength := 0, flags := q.flags.(trailing := true),
                         state := Ending(HeaderFieldStart))
    else q.(nread := 0, contentLength := size, state := InChunk(ChunkData))
  }

  lemma LineFeed(q: Parser)
    requires q.state == InChunk(ChunkSizeAlmostDone) && q.flags.chunked && q.nread < MAX_HEADER_SIZE
    ensures Byte(q, LF) == Go(AfterLine(q, q.contentLength), [], [ChunkHeader(q.contentLength)])
  {
  }

  lemma {:induction false} OneByte(r: Run, ch: byte)
    ensures RunFrom(r, [ch]) == Next(r, ch)
  {
    hide Next;
    assert [ch][..0] == [];
  }

  lemma TwoBytes(r: Run, a: byte, b: byte)
    ensures RunFrom(r, [a, b]) == Next(Next(r, a), b)
  {
    hide Next;
    assert [a] + [b] == [a, b];
    RunSplit(r, [a], [b]);
    OneByte(r, a);
    OneByte(RunFrom(r, [a]), b);
  }

  lemma SizeRun(q: Parser, c: ChunkText, ev: seq<Event>, n: nat)
    requires WellSized(c) && q.state == InChunk(ChunkSizeStart) && q.flags.chunked && q.nread == 0
    ensures var state := if c.extension == [] then ChunkSize else ChunkParameters;
            var k := |c.size| + |c.extension|;
            RunFrom(Running(q, None, ev, n), c.size + c.extension) ==
            Running(q.(state := InChunk(state), contentLength := |c.payload|, nread := k), None, ev, n + k)
  {
    hide RunFrom, HexValue, SizeRead;
    var s, x := c.size, c.extension;
    RunSplit(Running(q, None, ev, n), s, x);
    DigitsOnly(s);
    DigitsRun(q, s, ev, n);
    ExtensionRun(q.(state := InChunk(ChunkSize), contentLength := |c.payload|, nread := |s|), x, ev, n + |s|);
  }

  lemma LineEnds(q: Parser, c: ChunkState, ev: seq<Event>, n: nat)
    requires q.state == InChunk(c) && (c.ChunkSize? || c.ChunkParameters?) && q.flags.chunked &&
             q.nread + 2 <= MAX_HEADER_SIZE
    ensures RunFrom(Running(q, None, ev, n), CRLF) ==
            Running(AfterLine(q, q.contentLength), None, ev + [ChunkHeader(q.contentLength)], n + 2)
  {
    hide Byte, Next;
    LineByte(q, c, CR);
    var q' := q.(state := InChunk(ChunkSizeAlmostDone), nread := q.nread + 1);
    Quietly(q, ev, n, CR, q', []);
    assert ev + [] == ev;
    LineFeed(q');
    Quietly(q', ev, n + 1, LF, AfterLine(q', q.contentLength), [ChunkHeader(q.contentLength)]);
    TwoBytes(Running(q, None, ev, n), CR, LF);
  }

  lemma LineRun(q: Parser, c: ChunkText, ev: seq<Event>, n: nat)
    requires WellSized(c) && q.state == InChunk(ChunkSizeStart) && q.flags.chunked && q.nread == 0
    ensures RunFrom(Running(q, None, ev, n), Line(c)) ==
            Running(AfterLine(q, |c.payload|), None, ev + [ChunkHeader(|c.payload|)], n + |Line(c)|)
  {
    hide RunFrom, HexValue, Extension;
    RunSplit(Running(q, None, ev, n), c.size + c.extension, CRLF);
    SizeRun(q, c, ev, n);
    var state := if c.extension == [] then ChunkSize else ChunkParameters;
    var k := |c.size| + |c.extension|;
    LineEnds(q.(state := InChunk(state), contentLength := |c.payload|, nread := k), state, ev, n + k);
  }

  // ----- payload and end of a chunk

  lemma {:induction false} PayloadRun(q: Parser, text: Bytes, ev: seq<Event>, n: nat)
    requires q.state == InChunk(ChunkData) && q.flags.chunked && Framed(q) && 0 < |text| <= q.contentLength
    ensures RunFrom(Running(q, None, ev, n), text) ==
            Running(BodyAfter(q, |text|), Some(Piece(BodyText, text)), ev, n + |text|)
    decreases |text|
  {
    hide Next, Framed;
    var k := |text| - 1;
    BodyMore(q, k);
    if k == 0 {
      assert text[..0] == [] && text == [] + [text[0]];
      BodyNone(q);
      BodyStep(q, None, ev, n, text[0]);
    } else {
      PayloadRun(q, text[..k], ev, n);
      AfterFramed(q, k);
      BodyStep(BodyAfter(q, k), Some(Piece(BodyText, text[..k])), ev, n + k, text[k]);
      assert text[..k] + [text[k]] == text;
    }
  }

  lemma AfterFramed(q: Parser, k: nat)
    requires q.state == InChunk(ChunkData) && Framed(q) && k < q.contentLength
    ensures Framed(BodyAfter(q, k))
  {
  }

  lemma ChunkEnd(q: Parser, text: Bytes, ev: seq<Event>, n: nat)
    requires q.state == InChunk(ChunkDataAlmostDone) && q.flags.chunked && q.contentLength == 0
    ensures RunFrom(Running(q, Some(Piece(BodyText, text)), ev, n), CRLF) ==
            Running(q.(nread := 0, state := InChunk(ChunkSizeStart)), None,
                    ev + [Data(BodyText, text), ChunkComplete], n + 2)
  {
    var d, q' := Some(Piece(BodyText, text)), q.(state := InChunk(ChunkDataDone));
    CloseTurn(q);
    hide Byte;
    OnePerformed(d, [Close(BodyText)], CR);
    assert ev + [Data(BodyText, text)] + [] == ev + [Data(BodyText, text)];
    assert Next(Running(q, d, ev, n), CR) == Running(q', None, ev + [Data(BodyText, text)], n + 1);
    Quietly(q', ev + [Data(BodyText, text)], n + 1, LF, q'.(nread := 0, state := InChunk(ChunkSizeStart)),
            [ChunkComplete]);
    assert ev + [Data(BodyText, text)] + [ChunkComplete] == ev + [Data(BodyText, text), ChunkComplete];
    TwoBytes(Running(q, d, ev, n), CR, LF);
  }

  lemma CloseTurn(q: Parser)
    requires q.state == InChunk(ChunkDataAlmostDone) && q.flags.chunked && q.contentLength == 0
    ensures Byte(q, CR) == Go(q.(state := InChunk(ChunkDataDone)), [Close(BodyText)], [])
    ensures var p := q.(state := InChunk(ChunkDataDone));
            Byte(p, LF) == Go(p.(nread := 0, state := InChunk(ChunkSizeStart)), [], [ChunkComplete])
  {
  }

  lemma ChunkRun(q: Parser, c: ChunkText, ev: seq<Event>, n: nat)
    requires WellSized(c) && c.payload != [] && q.state == InChunk(ChunkSizeStart) && q.flags.chunked &&
             q.nread == 0 && Bounded(q)
    ensures RunFrom(Running(q, None, ev, n), Encoded(c)) ==
            Running(q.(contentLength := 0), None, ev + ChunkEvents(c), n + |Encoded(c)|)
  {
    hide RunFrom, Line, WellSized, Bounded;
    var r := Running(q, None, ev, n);
    var size, text := |c.payload|, c.payload;
    RunSplit(r, Line(c) + text, CRLF);
    RunSplit(r, Line(c), text);
    LineRun(q, c, ev, n);
    var ev1, n1 := ev + [ChunkHeader(size)], n + |Line(c)|;
    DataRun(q, c, ev1, n1);
    ChunkEnd(BodyAfter(AfterLine(q, size), size), text, ev1, n1 + size);
    assert ev1 + [Data(BodyText, text), ChunkComplete] == ev + ChunkEvents(c);
  }

  lemma DataRun(q: Parser, c: ChunkText, ev: seq<Event>, n: nat)
    requires WellSized(c) && c.payload != [] && q.flags.chunked && Bounded(q)
    ensures var q1, size := AfterLine(q, |c.payload|), |c.payload|;
            RunFrom(Running(q1, None, ev, n), c.payload) ==
            Running(BodyAfter(q1, size), Some(Piece(BodyText, c.payload)), ev, n + size) &&
            BodyAfter(q1, size) == q.(nread := 0, contentLength := 0, state := InChunk(ChunkDataAlmostDone))
  {
    hide RunFrom;
    PayloadRun(AfterLine(q, |c.payload|), c.payload, ev, n);
  }

  // ----- the last chunk

  lemma EndTurns(q: Parser)
    requires q.state == Ending(HeaderFieldStart) && q.nread == 0 && q.flags.trailing
    ensures Byte(q, CR) == Go(q.(state := Ending(HeadersAlmostDone), nread := 1), [], [])
    ensures Byte(q.(state := Ending(HeadersAlmostDone), nread := 1), LF) ==
            Complete(q.(state := Ending(HeadersAlmostDone), nread := 2), [], [ChunkComplete])
  {
    hide NewMessage;
  }

  /** The parser once the last chunk and the empty trailer are read. */
  function AfterBody(q: Parser): Parser {
    q.(nread := 2, contentLength := 0, flags := q.flags.(trailing := true))
  }

  lemma LastRun(q: Parser, last: ChunkText, ev: seq<Event>, n: nat)
    requires WellSized(last) && last.payload == [] && q.state == InChunk(ChunkSizeStart) && q.flags.chunked &&
             q.nread == 0
    ensures RunFrom(Running(q, None, ev, n), Line(last) + CRLF) ==
            Completed(AfterBody(q), ev + [ChunkHeader(0), ChunkComplete, MessageComplete], n + |Line(last)| + 2)
  {
    hide Line, RunFrom, Completed, WellSized;
    RunSplit(Running(q, None, ev, n), Line(last), CRLF);
    LineRun(q, last, ev, n);
    EmptyTrailer(AfterLine(q, 0), ev + [ChunkHeader(0)], n + |Line(last)|);
    assert ev + [ChunkHeader(0)] + [ChunkComplete, MessageComplete] ==
           ev + [ChunkHeader(0), ChunkComplete, MessageComplete];
    CompletedAnyState(AfterLine(q, 0).(nread := 2), AfterBody(q),
                      ev + [ChunkHeader(0), ChunkComplete, MessageComplete], n + |Line(last)| + 2);
  }

  lemma EmptyTrailer(q: Parser, ev: seq<Event>, n: nat)
    requires q.state == Ending(HeaderFieldStart) && q.nread == 0 && q.flags.trailing
    ensures RunFrom(Running(q, None, ev, n), CRLF) ==
            Completed(q.(nread := 2), ev + [ChunkComplete, MessageComplete], n + 2)
  {
    hide Byte, NewMessage;
    EndTurns(q);
    var q' := q.(state := Ending(HeadersAlmostDone), nread := 1);
    Quietly(q, ev, n, CR, q', []);
    assert ev + [] == ev;
    TwoBytes(Running(q, None, ev, n), CR, LF);
    assert ev + [] + ([ChunkComplete] + [MessageComplete]) == ev + [ChunkComplete, MessageComplete];
    SameMessage(q'.(nread := 2), q.(nread := 2));
  }

  lemma CompletedAnyState(a: Parser, b: Parser, ev: seq<Event>, n: nat)
    requires a == b.(state := a.state)
    ensures Completed(a, ev, n) == Completed(b, ev, n)
  {
    hide NewMessage;
    SameMessage(a, b);
  }

  lemma SameMessage(a: Parser, b: Parser)
    requires a == b.(state := a.state)
    ensures NewMessage(a) == NewMessage(b)
  {
  }

  lemma {:induction false} BodyRun(q: Parser, chunks: seq<ChunkText>, last: ChunkText, ev: seq<Event>, n: nat)
    requires forall c <- chunks :: WellSized(c) && c.payload != []
    requires WellSized(last) && last.payload == []
    requires q.state == InChunk(ChunkSizeStart) && q.flags.chunked && q.nread == 0 && Bounded(q)
    ensures RunFrom(Running(q, None, ev, n), EncodedBody(chunks, last)) ==
            Completed(AfterBody(q), ev + EventsOf(chunks), n + |EncodedBody(chunks, last)|)
    decreases |chunks|
  {
    hide Encoded, Line, WellSized, RunFrom, Completed, AfterBody, Byte, Next, ChunkEvents;
    if chunks == [] {
      LastRun(q, last, ev, n);
    } else {
      var c, rest := chunks[0], EncodedBody(chunks[1..], last);
      FirstChunk(q, c, rest, ev, n);
      BodyRun(q.(contentLength := 0), chunks[1..], last, ev + ChunkEvents(c), n + |Encoded(c)|);
      Told(ev, ChunkEvents(c), EventsOf(chunks[1..]));
      AfterBodyAgain(q);
    }
  }

  lemma FirstChunk(q: Parser, c: ChunkText, rest: Bytes, ev: seq<Event>, n: nat)
    requires WellSized(c) && c.payload != [] && q.state == InChunk(ChunkSizeStart) && q.flags.chunked &&
             q.nread == 0 && Bounded(q)
    ensures RunFrom(Running(q, None, ev, n), Encoded(c) + rest) ==
            RunFrom(Running(q.(contentLength := 0), None, ev + ChunkEvents(c), n + |Encoded(c)|), rest)
  {
    hide Encoded, WellSized, RunFrom, ChunkEvents;
    RunSplit(Running(q, None, ev, n), Encoded(c), rest);
    ChunkRun(q, c, ev, n);
  }

  lemma AfterBodyAgain(q: Parser)
    ensures AfterBody(q.(contentLength := 0)) == AfterBody(q)
  {
  }

  // ----- what the callbacks add up to

  /** The data of one kind, callback after callback. */
  function Gathered(kind: Kind, events: seq<Event>): Bytes
    decreases |events|
  {
    if events == [] then []
    else (if events[0].Data? && events[0].kind == kind then events[0].bytes else []) + Gathered(kind, events[1..])
  }

  /** How often a callback without data was made. */
  function Times(note: Event, events: seq<Event>): nat
    decreases |events|
  {
    if events == [] then 0 else (if events[0] == note then 1 else 0) + Times(note, events[1..])
  }

  function BodyOf(events: seq<Event>): Bytes {
    Gathered(BodyText, events)
  }

  function Completions(events: seq<Event>): nat {
    Times(MessageComplete, events)
  }

  function Payload(chunks: seq<ChunkText>): Bytes {
    if chunks == [] then [] else chunks[0].payload + Payload(chunks[1..])
  }

  lemma BodySplit(a: seq<Event>, b: seq<Event>)
    ensures BodyOf(a + b) == BodyOf(a) + BodyOf(b) && Completions(a + b) == Completions(a) + Completions(b)
  {
    GatheredSplit(BodyText, a, b);
    TimesSplit(MessageComplete, a, b);
  }

  lemma {:induction false} GatheredSplit(kind: Kind, a: seq<Event>, b: seq<Event>)
    ensures Gathered(kind, a + b) == Gathered(kind, a) + Gathered(kind, b)
    decreases |a|
  {
    if a == [] {
      assert a + b == b;
    } else {
      assert (a + b)[1..] == a[1..] + b;
      GatheredSplit(kind, a[1..], b);
    }
  }

  lemma {:induction false} TimesSplit(note: Event, a: seq<Event>, b: seq<Event>)
    ensures Times(note, a + b) == Times(note, a) + Times(note, b)
    decreases |a|
  {
    if a == [] {
      assert a + b == b;
    } else {
      assert (a + b)[1..] == a[1..] + b;
      TimesSplit(note, a[1..], b);
    }
  }

  lemma OneEvent(kind: Kind, note: Event, e: Event)
    ensures Gathered(kind, [e]) == (if e.Data? && e.kind == kind then e.bytes else [])
    ensures Times(note, [e]) == if e == note then 1 else 0
  {
    assert [e][1..] == [];
  }

  lemma BodyOfOne(e: Event)
    ensures BodyOf([e]) == (if e.Data? && e.kind == BodyText then e.bytes else [])
    ensures Completions([e]) == if e.MessageComplete? then 1 else 0
  {
    OneEvent(BodyText, MessageComplete, e);
  }

  lemma AddKeeps(kind: Kind, note: Event, s: seq<Event>, e: Event)
    requires !note.Data?
    ensures Gathered(kind, Add(s, e)) == Gathered(kind, s) + Gathered(kind, [e])
    ensures Times(note, Add(s, e)) == Times(note, s) + Times(note, [e])
  {
    hide Gathered, Times;
    var m := |s| - 1;
    if s != [] && e.Data? && s[m].Data? && s[m].kind == e.kind {
      assert s == s[..m] + [s[m]];
      JoinedLast(kind, note, s[..m], e.kind, s[m].bytes, e.bytes);
    } else {
      GatheredSplit(kind, s, [e]);
      TimesSplit(note, s, [e]);
    }
  }

  lemma JoinedLast(kind: Kind, note: Event, a: seq<Event>, k: Kind, x: Bytes, y: Bytes)
    requires !note.Data?
    ensures Gathered(kind, a + [Data(k, x + y)]) == Gathered(kind, a + [Data(k, x)]) + Gathered(kind, [Data(k, y)])
    ensures Times(note, a + [Data(k, x + y)]) == Times(note, a + [Data(k, x)]) + Times(note, [Data(k, y)])
  {
    hide Gathered, Times;
    EndedBy(kind, note, a, k, x);
    EndedBy(kind, note, a, k, x + y);
    OneEvent(kind, note, Data(k, y));
    assert Gathered(kind, a) + (x + y) == Gathered(kind, a) + x + y;
  }

  lemma EndedBy(kind: Kind, note: Event, a: seq<Event>, k: Kind, x: Bytes)
    requires !note.Data?
    ensures Gathered(kind, a + [Data(k, x)]) == Gathered(kind, a) + if k == kind then x else []
    ensures Times(note, a + [Data(k, x)]) == Times(note, a)
  {
    hide Gathered, Times;
    GatheredSplit(kind, a, [Data(k, x)]);
    TimesSplit(note, a, [Data(k, x)]);
    OneEvent(kind, note, Data(k, x));
  }

  /** Joining adjacent data changes neither the data of a kind nor how often a callback is made. */
  lemma {:induction false} JoinKeeps(kind: Kind, note: Event, s: seq<Event>, es: seq<Event>)
    requires !note.Data?
    ensures Gathered(kind, AddAll(s, es)) == Gathered(kind, s) + Gathered(kind, es)
    ensures Times(note, AddAll(s, es)) == Times(note, s) + Times(note, es)
    decreases |es|
  {
    hide Add;
    if es != [] {
      JoinKeeps(kind, note, Add(s, es[0]), es[1..]);
      AddKeeps(kind, note, s, es[0]);
      assert es == [es[0]] + es[1..];
      GatheredSplit(kind, [es[0]], es[1..]);
      TimesSplit(note, [es[0]], es[1..]);
    }
  }

  lemma Joined(kind: Kind, note: Event, es: seq<Event>)
    requires !note.Data?
    ensures Gathered(kind, Join(es)) == Gathered(kind, es) && Times(note, Join(es)) == Times(note, es)
  {
    JoinKeeps(kind, note, [], es);
    assert [] + Gathered(kind, es) == Gathered(kind, es);
  }

  lemma {:induction false} EventsAddUp(chunks: seq<ChunkText>)
    ensures BodyOf(EventsOf(chunks)) == Payload(chunks) && Completions(EventsOf(chunks)) == 1
    decreases |chunks|
  {
    hide BodyOf, Completions, ChunkEvents;
    if chunks == [] {
      ThreeEvents(ChunkHeader(0), ChunkComplete, MessageComplete);
    } else {
      ChunkAddsUp(chunks[0]);
      BodySplit(ChunkEvents(chunks[0]), EventsOf(chunks[1..]));
      EventsAddUp(chunks[1..]);
    }
  }

  lemma ChunkAddsUp(c: ChunkText)
    ensures BodyOf(ChunkEvents(c)) == c.payload && Completions(ChunkEvents(c)) == 0
  {
    hide BodyOf, Completions;
    ThreeEvents(ChunkHeader(|c.payload|), Data(BodyText, c.payload), ChunkComplete);
    assert [] + c.payload + [] == c.payload;
  }

  lemma ThreeEvents(a: Event, b: Event, c: Event)
    ensures BodyOf([a, b, c]) == BodyOf([a]) + BodyOf([b]) + BodyOf([c])
    ensures Completions([a, b, c]) == Completions([a]) + Completions([b]) + Completions([c])
    ensures forall e: Event <- [a, b, c] :: BodyOf([e]) == (if e.Data? && e.kind == BodyText then e.bytes else [])
    ensures forall e: Event <- [a, b, c] :: Completions([e]) == if e.MessageComplete? then 1 else 0
  {
    assert [a, b, c] == [a] + [b] + [c];
    BodySplit([a] + [b], [c]);
    BodySplit([a], [b]);
    BodyOfOne(a);
    BodyOfOne(b);
    BodyOfOne(c);
  }

  /** Chunk decoding inverts chunk encoding: whatever the chunks, and however their text is
      cut into calls, no call fails, the body callbacks add up to the payloads, exactly one
      message ends, and all of the text is read. */
  lemma ChunkedBodyDecodes(p: Parser, chunks: seq<ChunkText>, last: ChunkText, pieces: seq<Bytes>)
    requires forall c <- chunks :: WellSized(c) && c.payload != []
    requires WellSized(last) && last.payload == []
    requires p.state == InChunk(ChunkSizeStart) && p.flags.chunked && p.nread == 0 && Bounded(p)
    requires pieces != [] && AllHaveData(pieces) && Flatten(pieces) == EncodedBody(chunks, last)
    ensures var r := Calls(p, pieces);
            !r.Failed? && (r.Stopped? <==> p.upgrade) && r.p == AfterBody(p).(state := NewMessage(AfterBody(p))) &&
            r.read == |EncodedBody(chunks, last)| &&
            Join(r.events) == Join(EventsOf(chunks)) && BodyOf(r.events) == Payload(chunks) &&
              Completions(r.events) == 1
  {
    hide NewMessage, Join, WellSized, Line, Encoded, RunFrom;
    var text := EncodedBody(chunks, last);
    BodyRun(p, chunks, last, [], 0);
    assert [] + EventsOf(chunks) == EventsOf(chunks);
    assert EventsOf(chunks) + Pending(None) == EventsOf(chunks);
    CutIndependence(p, pieces);
    var r := Calls(p, pieces);
    JoinedBody(r.events);
    JoinedBody(EventsOf(chunks));
    EventsAddUp(chunks);
  }

  lemma JoinedBody(es: seq<Event>)
    ensures BodyOf(Join(es)) == BodyOf(es) && Completions(Join(es)) == Completions(es)
  {
    Joined(BodyText, MessageComplete, es);
  }

  /** How many bytes the parser takes for digits, before the first it does not. */
  function TakenLength(s: Bytes): (k: nat)
    ensures k <= |s| && AllTaken(s[..k]) && (k < |s| ==> !IsHex(s[k]) && s[k] < 128)
  {
    if s == [] then 0
    else
      var k := TakenLength(s[..|s| - 1]);
      assert s[..|s| - 1][..k] == s[..k];
      if k == |s| - 1 && (IsHex(s[k]) || s[k] >= 128) then |s| else k
  }

  lemma Refusal(q: Parser, ev: seq<Event>, n: nat, ch: byte)
    requires q.flags.chunked && !IsHex(ch) && ch < 128 && ch != CR && ch != 59 && ch != SPACE
    requires (q.state == InChunk(ChunkSizeStart) && q.nread == 0) ||
             (q.state == InChunk(ChunkSize) && q.nread < MAX_HEADER_SIZE)
    ensures Next(Running(q, None, ev, n), ch) == Failed(InvalidChunkSize, None, ev, n)
  {
    RefusedTurn(q, ch);
    hide Byte;
    assert PerformAll(None, [], ch) == (None, []);
    assert ev + [] + [] == ev;
  }

  lemma RefusedTurn(q: Parser, ch: byte)
    requires q.flags.chunked && !IsHex(ch) && ch < 128 && ch != CR && ch != 59 && ch != SPACE
    requires (q.state == InChunk(ChunkSizeStart) && q.nread == 0) ||
             (q.state == InChunk(ChunkSize) && q.nread < MAX_HEADER_SIZE)
    ensures Byte(q, ch) == Fail(InvalidChunkSize)
  {
  }

  /** A size is taken exactly when every byte of it is a hexadecimal digit or in the table's
      upper half, and the number read that way is at most 2^64 - 17; the number is then stored
      as it is, so it neither wraps nor meets the "absent" value. Otherwise the call fails: at
      the first other byte, unless the number before it is too large already. (A carriage
      return, semicolon or space would end the size.) */
  lemma ChunkSizeExact(p: Parser, size: Bytes)
    requires size != [] && |size| <= MAX_HEADER_SIZE && forall k :: 0 <= k < |size| ==> size[k] !in {CR, 59, SPACE}
    requires p.state == InChunk(ChunkSizeStart) && p.flags.chunked && p.nread == 0
    ensures var r, k := Call(p, size), TakenLength(size);
            var number := SizeRead(size[..k]);
            if number > 0xffff_ffff_ffff_ffef then r.Failed? && r.errno == InvalidContentLength && r.events == []
            else if AllTaken(size) then
              r.Running? && r.p == p.(state := InChunk(ChunkSize), contentLength := SizeRead(size),
                                      nread := |size|) && r.events == []
            else r == Failed(InvalidChunkSize, None, [], k)
  {
    hide RunFrom, SizeRead, IsHex, AllTaken, TakenLength, Start;
    StartChunk(p);
    TakenAll(size);
    SizeOutcome(p, size);
  }

  lemma SizeOutcome(p: Parser, size: Bytes)
    requires size != [] && |size| <= MAX_HEADER_SIZE && forall k :: 0 <= k < |size| ==> size[k] !in {CR, 59, SPACE}
    requires p.state == InChunk(ChunkSizeStart) && p.flags.chunked && p.nread == 0
    ensures var r, k := RunFrom(Running(p, None, [], 0), size), TakenLength(size);
            if SizeRead(size[..k]) > MAX_CHUNK then r.Failed? && r.errno == InvalidContentLength && r.events == []
            else if k == |size| then
              AllTaken(size) &&
              r == Running(p.(state := InChunk(ChunkSize), contentLength := SizeRead(size), nread := |size|), None,
                           [], |size|)
            else r == Failed(InvalidChunkSize, None, [], k)
  {
    hide RunFrom, Next, SizeRead, IsHex, AllTaken, TakenLength, MAX_CHUNK;
    var k := TakenLength(size);
    if k == |size| {
      assert size[..k] == size;
      DigitsRun(p, size, [], 0);
    } else {
      assert size == size[..k] + [size[k]] + size[k + 1..];
      SizeRefused(p, size[..k], size[k], size[k + 1..]);
    }
  }

  lemma TakenAll(s: Bytes)
    ensures AllTaken(s) <==> TakenLength(s) == |s|
  {
    hide IsHex;
    if TakenLength(s) == |s| { assert s[..|s|] == s; }
  }

  lemma StartChunk(p: Parser)
    requires p.state == InChunk(ChunkSizeStart)
    ensures Start(p) == Running(p, None, [], 0)
  {
  }

  lemma SizeRefused(p: Parser, ds: Bytes, ch: byte, rest: Bytes)
    requires AllTaken(ds) && |ds| < MAX_HEADER_SIZE && !IsHex(ch) && ch < 128 && ch !in {CR, 59, SPACE}
    requires p.state == InChunk(ChunkSizeStart) && p.flags.chunked && p.nread == 0
    ensures var r := RunFrom(Running(p, None, [], 0), ds + [ch] + rest);
            if SizeRead(ds) > MAX_CHUNK then r.Failed? && r.errno == InvalidContentLength && r.events == []
            else r == Failed(InvalidChunkSize, None, [], |ds|)
  {
    hide RunFrom, Next, SizeRead, IsHex, AllTaken;
    var r0 := Running(p, None, [], 0);
    RunSplit(r0, ds + [ch], rest);
    RunSplit(r0, ds, [ch]);
    if ds == [] { NoDigits(r0); } else { DigitsRun(p, ds, [], 0); }
    var r := RunFrom(r0, ds);
    OneByte(r, ch);
    if r.Running? { Refusal(r.p, [], |ds|, ch); } else { Absorbed(r, [ch]); }
    Absorbed(RunFrom(r, [ch]), rest);
  }

  lemma NoDigits(r: Run)
    ensures RunFrom(r, []) == r && AllTaken([]) && SizeRead([]) == 0
  {
  }

  /** A size in hexadecimal digits alone is read as the number they denote. */
  lemma HexSizeExact(p: Parser, size: Bytes)
    requires size != [] && |size| <= MAX_HEADER_SIZE && AllHex(size)
    requires p.state == InChunk(ChunkSizeStart) && p.flags.chunked && p.nread == 0
    ensures var r := Call(p, size);
            if HexValue(size) <= 0xffff_ffff_ffff_ffef then
              r.Running? && r.p.contentLength == HexValue(size) && r.p.state == InChunk(ChunkSize)
            else r.Failed? && r.errno == InvalidContentLength
  {
    hide RunFrom, HexValue, SizeRead;
    DigitsOnly(size);
    DigitsRun(p, size, [], 0);
  }

  /** A line with no digit at all ends the body, and a byte that is no digit makes a size of
      5 one of 80. */
  lemma HighBytesAreZeros(p: Parser)
    requires p.state == InChunk(ChunkSizeStart) && p.flags.chunked && p.nread == 0
    ensures Call(p, [0xFF] + CRLF) == Running(AfterLine(p, 0), None, [ChunkHeader(0)], 3)
    ensures Call(p, [53, 0x80] + CRLF) == Running(AfterLine(p, 0x50), None, [ChunkHeader(0x50)], 4)
  {
    hide RunFrom;
    var r0 := Running(p, None, [], 0);
    TwoSizes();
    RunSplit(r0, [0xFF], CRLF);
    DigitsRun(p, [0xFF], [], 0);
    LineEnds(p.(state := InChunk(ChunkSize), contentLength := 0, nread := 1), ChunkSize, [], 1);
    RunSplit(r0, [53, 0x80], CRLF);
    DigitsRun(p, [53, 0x80], [], 0);
    LineEnds(p.(state := InChunk(ChunkSize), contentLength := 0x50, nread := 2), ChunkSize, [], 2);
    assert [] + [ChunkHeader(0)] + [] == [ChunkHeader(0)] && [] + [ChunkHeader(0x50)] + [] == [ChunkHeader(0x50)];
  }

  lemma TwoSizes()
    ensures AllTaken([0xFF]) && SizeRead([0xFF]) == 0 && AllTaken([53, 0x80]) && SizeRead([53, 0x80]) == 0x50
  {
    assert [0xFF][..0] == [] && [53, 0x80][..1] == [53] && [53][..0] == [];
    assert SizeRead([53]) == 5;
  }
}
