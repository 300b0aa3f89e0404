/** http_parser_execute as it runs: positions into the data for marks, and loops that take a
    header name, a header value or a body in one go, counting its bytes afterwards. */
module HttpExecute {
  import opened Bytes
  import opened HttpTypes
  import opened HttpTurn
  import opened HttpRun
  import opened HttpCut
  import opened HttpFraming

  type Marks = map<Kind, nat>

  /** The marks point at the data under way; no two are ever set. */
  ghost predicate Marked(marks: Marks, data: Bytes, p: nat, open: Option<Piece>) {
    match open
    case None => marks == map[]
    case Some(d) => marks.Keys == {d.kind} && marks[d.kind] <= p <= |data| && data[marks[d.kind]..p] == d.bytes
  }

  /** The run over the first `i` bytes. */
  ghost function At(r0: Run, data: Bytes, i: nat): Run
    requires i <= |data|
  {
    RunFrom(r0, data[..i])
  }

  lemma AtNext(r0: Run, data: Bytes, i: nat)
    requires i < |data|
    ensures At(r0, data, i + 1) == Next(At(r0, data, i), data[i])
  {
    hide Next;
    assert data[..i + 1][..i] == data[..i];
  }

  lemma {:induction false} AtFailed(r0: Run, data: Bytes, i: nat)
    requires i <= |data| && At(r0, data, i).Failed?
    ensures At(r0, data, |data|) == At(r0, data, i)
    decreases |data| - i
  {
    hide Byte;
    if i < |data| {
      AtNext(r0, data, i);
      AtFailed(r0, data, i + 1);
    }
  }

  /** The run where it overflowed, `over` bytes before place `n`; those were data under way. */
  ghost function Overflowed(kind: Kind, text: Bytes, events: seq<Event>, n: nat, over: nat): Run
    requires over <= n && over <= |text|
  {
    Failed(HeaderOverflow, Some(Piece(kind, text[..|text| - over])), events, n - over)
  }

  /** The run while a batch is taken: `q` is the parser with no byte of the batch counted
      beyond its first, and `k` bytes are taken; counting them may already have failed. */
  ghost predicate Ahead(r: Run, q: Parser, base: nat, k: nat, d: Piece, events: seq<Event>, n: nat) {
    base <= MAX_HEADER_SIZE && k <= n && k <= |d.bytes| &&
    r == if base + k <= MAX_HEADER_SIZE then Running(q.(nread := base + k), Some(d), events, n)
         else Overflowed(d.kind, d.bytes, events, n, base + k - MAX_HEADER_SIZE)
  }

  lemma MatchCounts(q: Parser, word: string, c: byte, missed: HState, done: HState, x: nat)
    ensures MatchWord(q.(nread := x), word, c, missed, done) == MatchWord(q, word, c, missed, done).(nread := x)
    ensures MatchWord(q, word, c, missed, done).nread == q.nread && MatchWord(q, word, c, missed, done).state == q.state
  {
  }

  lemma FieldCharCounts(q: Parser, c: byte, x: nat)
    requires FieldChar(q, c).Some?
    ensures FieldChar(q.(nread := x), c) == Some(FieldChar(q, c).value.(nread := x))
    ensures FieldChar(q, c).value.state == q.state && FieldChar(q, c).value.nread == q.nread
  {
    hide MatchWord;
    match q.headerState {
      case MatchingConnection => MatchCounts(q, "connection", c, General, Connection, x);
      case MatchingProxyConnection => MatchCounts(q, "proxy-connection", c, General, Connection, x);
      case MatchingContentLength => MatchCounts(q, "content-length", c, General, ContentLength, x);
      case MatchingTransferEncoding => MatchCounts(q, "transfer-encoding", c, General, TransferEncoding, x);
      case MatchingUpgrade => MatchCounts(q, "upgrade", c, General, Upgrade, x);
      case _ =>
    }
  }

  /** Next, for a byte that only changes the parser and lies inside the data under way. */
  lemma NextInside(p: Parser, d: Piece, events: seq<Event>, n: nat, ch: byte, q: Parser)
    requires Byte(p, ch) == Go(q, [], [])
    ensures Next(Running(p, Some(d), events, n), ch) == Running(q, Some(Piece(d.kind, d.bytes + [ch])), events, n + 1)
  {
    hide Byte;
    assert PerformAll(Some(d), [], ch) == (Some(d), []);
    assert events + [] + [] == events;
  }

  lemma Overflows(r: Run, q: Parser, base: nat, k: nat, d: Piece, events: seq<Event>, n: nat, ch: byte, q': Parser)
    requires Ahead(r, q, base, k, d, events, n) && base + k + 1 > MAX_HEADER_SIZE && ParsingHeader(q.state)
    ensures Ahead(Next(r, ch), q', base, k + 1, Piece(d.kind, d.bytes + [ch]), events, n + 1)
  {
    var text := d.bytes + [ch];
    var over := base + k + 1 - MAX_HEADER_SIZE;
    assert text[..|text| - over] == d.bytes[..|text| - over];
    if over == 1 {
      assert d.bytes[..|d.bytes|] == d.bytes;
      OverflowTurn(r.p, ch);
      assert PerformAll(r.open, [], ch) == (r.open, []);
      assert events + [] + [] == events;
    }
  }

  lemma OverflowTurn(p: Parser, ch: byte)
    requires ParsingHeader(p.state) && p.nread >= MAX_HEADER_SIZE
    ensures Byte(p, ch) == Fail(HeaderOverflow)
  {
  }

  lemma ByteInField(p: Parser, ch: byte)
    requires p.state.HeaderField? && p.nread < MAX_HEADER_SIZE
    ensures Byte(p, ch) == Field(p.(nread := p.nread + 1), ch)
  {
    hide Field;
  }

  lemma ByteInValue(p: Parser, ch: byte)
    requires p.state.HeaderValue? && p.nread < MAX_HEADER_SIZE
    ensures Byte(p, ch) == Value(p.(nread := p.nread + 1), ch)
  {
    hide Value;
  }

  lemma FieldStep(r: Run, q: Parser, base: nat, k: nat, text: Bytes, events: seq<Event>, n: nat, ch: byte)
    requires Ahead(r, q, base, k, Piece(HeaderFieldText, text), events, n)
    requires q.state.HeaderField? && TokenOf(ch) != 0 && FieldChar(q, TokenOf(ch)).Some?
    ensures Ahead(Next(r, ch), FieldChar(q, TokenOf(ch)).value, base, k + 1,
                  Piece(HeaderFieldText, text + [ch]), events, n + 1)
  {
    hide FieldChar, TokenOf, Byte, Next;
    var c := TokenOf(ch);
    if base + k + 1 > MAX_HEADER_SIZE {
      Overflows(r, q, base, k, Piece(HeaderFieldText, text), events, n, ch, FieldChar(q, c).value);
    } else {
      FieldCharCounts(q, c, base + k + 1);
      var p, q' := q.(nread := base + k), FieldChar(q, c).value.(nread := base + k + 1);
      ByteInField(p, ch);
      NextInside(p, Piece(HeaderFieldText, text), events, n, ch, q');
    }
  }

  /** The turn does not depend on the count, and leaves it alone. */
  ghost predicate Uncounted(q: Parser, t: Turn, t': Turn, x: nat) {
    if t.Failing? then t' == t else t.p.nread == q.nread && t' == Go(t.p.(nread := x), [], [])
  }

  lemma ConnectionCounts(q: Parser, ch: byte, x: nat)
    ensures Uncounted(q, ConnectionEnd(q, ch), ConnectionEnd(q.(nread := x), ch), x)
    ensures Uncounted(q, LengthDigit(q, ch), LengthDigit(q.(nread := x), ch), x)
  {
  }

  lemma ValueCharCounts(q: Parser, ch: byte, x: nat)
    ensures Uncounted(q, ValueChar(q, ch), ValueChar(q.(nread := x), ch), x)
  {
    var c := Lower(ch);
    match q.headerState {
      case MatchingTeChunked => WordCounts(q, ch, "chunked", MatchingTeToken, TeChunked, x);
      case MatchingConnKeepAlive => WordCounts(q, ch, "keep-alive", MatchingConnToken, ConnKeepAlive, x);
      case MatchingConnClose => WordCounts(q, ch, "close", MatchingConnToken, ConnClose, x);
      case MatchingConnUpgrade => WordCounts(q, ch, "upgrade", MatchingConnToken, ConnUpgrade, x);
      case ConnKeepAlive | ConnClose | ConnUpgrade => ConnectionCounts(q, ch, x);
      case ContentLength | ContentLengthNum =>
        hide LengthDigit;
        ConnectionCounts(q, ch, x);
      case _ => OtherCounts(q, ch, x);
    }
  }

  lemma WordCounts(q: Parser, ch: byte, word: string, missed: HState, done: HState, x: nat)
    ensures Uncounted(q, To(MatchWord(q, word, Lower(ch), missed, done), HeaderValue),
                      To(MatchWord(q.(nread := x), word, Lower(ch), missed, done), HeaderValue), x)
  {
    hide MatchWord;
    MatchCounts(q, word, Lower(ch), missed, done, x);
  }

  lemma OtherCounts(q: Parser, ch: byte, x: nat)
    requires var h := q.headerState;
             !(h.MatchingTeChunked? || h.MatchingConnKeepAlive? || h.MatchingConnClose? || h.MatchingConnUpgrade? ||
               h.ConnKeepAlive? || h.ConnClose? || h.ConnUpgrade? || h.ContentLength? || h.ContentLengthNum?)
    ensures Uncounted(q, ValueChar(q, ch), ValueChar(q.(nread := x), ch), x)
  {
    hide TokenOf;
  }

  /** A byte of a value that is neither CR nor LF, and that the code lets through. */
  lemma ValueStep(r: Run, q: Parser, base: nat, k: nat, text: Bytes, events: seq<Event>, n: nat, ch: byte)
    requires Ahead(r, q, base, k, Piece(HeaderValueText, text), events, n)
    requires q.state.HeaderValue? && ch != CR && ch != LF && (q.lenient || IsHeaderChar(ch)) &&
             !ValueChar(q, ch).Failing?
    ensures Ahead(Next(r, ch), ValueChar(q, ch).p, base, k + 1, Piece(HeaderValueText, text + [ch]), events, n + 1)
  {
    hide ValueChar, Byte, Next, IsHeaderChar;
    ValueCharStays(q, ch);
    if base + k + 1 > MAX_HEADER_SIZE {
      Overflows(r, q, base, k, Piece(HeaderValueText, text), events, n, ch, ValueChar(q, ch).p);
    } else {
      ValueCharCounts(q, ch, base + k + 1);
      var p, q' := q.(nread := base + k), ValueChar(q, ch).p.(nread := base + k + 1);
      ByteInValue(p, ch);
      NextInside(p, Piece(HeaderValueText, text), events, n, ch, q');
    }
  }

  /** A byte of a value that the code refuses. */
  lemma ValueRefused(r: Run, q: Parser, base: nat, k: nat, d: Piece, events: seq<Event>, n: nat, ch: byte, e: Errno)
    requires Ahead(r, q, base, k, d, events, n) && q.state.HeaderValue? && ch != CR && ch != LF
    requires if !q.lenient && !IsHeaderChar(ch) then e == InvalidHeaderToken else ValueChar(q, ch) == Fail(e)
    ensures if base + k + 1 > MAX_HEADER_SIZE then
            Ahead(Next(r, ch), q, base, k + 1, Piece(d.kind, d.bytes + [ch]), events, n + 1)
            else Next(r, ch) == Failed(e, Some(d), events, n)
  {
    hide ValueChar, Byte, IsHeaderChar;
    if base + k + 1 > MAX_HEADER_SIZE {
      Overflows(r, q, base, k, d, events, n, ch, q);
    } else {
      ValueCharCounts(q, ch, base + k + 1);
      ByteInValue(q.(nread := base + k), ch);
      assert PerformAll(Some(d), [], ch) == (Some(d), []);
      assert events + [] + [] == events;
    }
  }

  /** The run fails at place `p` of a value, or has overflowed before, in the same value. */
  ghost predicate FailsInValue(r: Run, p: nat, e: Errno, events: seq<Event>) {
    && e in {InvalidHeaderToken, InvalidContentLength}
    && r.Failed? && r.events == events && r.read <= p && r.open.Some? && r.open.value.kind == HeaderValueText
    && (r.errno != HeaderOverflow ==> r.errno == e && r.read == p)
  }

  /** What a call may report where the run `r` has overflowed and the call gives up at `p`. */
  ghost predicate OverflowReported(r: Run, data: Bytes, p: nat, e: Errno, told: seq<Event>, before: seq<Event>)
    requires r.Failed? && r.read <= p < |data|
  {
    var inValue := r.open.Some? && r.open.value.kind == HeaderValueText;
    || (e == HeaderOverflow && told == before + r.events)
    || (inValue && e == InvalidHeaderToken && told == before + r.events && !IsHeaderChar(data[p]))
    || (inValue && e == InvalidContentLength && told == before + r.events && data[p] != CR && data[p] != LF)
    || (inValue && e == HeaderOverflow && data[p] == CR &&
        told == before + r.events + [Data(HeaderValueText, r.open.value.bytes + data[r.read..p])])
  }

  // ----- the parser

  /** What nread, a uint32_t, and one more batch must stay below. */
  const MAX_DATA: nat := 0xffff_ffff - MAX_HEADER_SIZE

  class HttpParser {
    var it: Parser
    /** http_errno; None is HPE_OK. */
    var errno: Option<Errno>
    /** The callbacks made so far. */
    var told: seq<Event>

    ghost predicate Valid()
      reads this
    {
      errno.None? ==> Framed(it)
    }

    constructor (kind: Type, lenient: bool)
      ensures Valid() && it == InitialParser(kind, lenient) && errno == None && told == []
    {
      it := InitialParser(kind, lenient);
      errno := None;
      told := [];
    }

    /** COUNT_HEADER_SIZE. */
    method Count(v: nat)
      requires errno.None? && it.nread + v <= 0xffff_ffff
      modifies `it, `errno
      ensures it == old(it).(nread := old(it).nread + v)
      ensures errno == if old(it).nread + v > MAX_HEADER_SIZE then Some(HeaderOverflow) else None
    {
      it := it.(nread := (it.nread + v % 0x1_0000_0000) % 0x1_0000_0000);
      if it.nread > MAX_HEADER_SIZE {
        errno := Some(HeaderOverflow);
      }
    }

    /** CALLBACK_DATA_ for the bytes up to `end`. */
    method Callback(marks: Marks, kind: Kind, data: Bytes, end: nat) returns (marks': Marks)
      requires end <= |data| && (kind in marks ==> marks[kind] <= end)
      modifies `told
      ensures marks' == marks - {kind}
      ensures kind !in marks ==> marks' == marks
      ensures marks.Keys == {kind} ==> marks' == map[]
      ensures told == old(told) + if kind in marks then [Data(kind, data[marks[kind]..end])] else []
    {
      if kind in marks {
        told := told + [Data(kind, data[marks[kind]..end])];
      }
      marks' := marks - {kind};
    }

    /** The object agrees with the run over the first `p` bytes. */
    ghost predicate Agrees(r: Run, p: nat, data: Bytes, marks: Marks, before: seq<Event>)
      reads this
    {
      errno.None? && r.Running? && r.p == it && r.read == p && told == before + r.events &&
        Marked(marks, data, p, r.open) && Framed(it)
    }

    /** The same in the middle of a turn, when the first byte of the batch is counted. */
    ghost predicate Entered(r: Run, p: nat, data: Bytes, marks: Marks, before: seq<Event>)
      reads this
    {
      errno.None? && it.nread > 0 && r.Running? && r.p == it.(nread := it.nread - 1) && r.read == p &&
        told == before + r.events &&
      Marked(marks, data, p, r.open) && Framed(it)
    }

    /** The call fails with the byte at `p`. Where the header does not overflow, that is how
        the run fails. Where it does, the byte comes later in the same row; and if the row is
        a value, its end may have been told, or a byte of it that is refused found first. */
    ghost predicate Refused(r: Run, data: Bytes, p: nat, before: seq<Event>)
      reads this
    {
      && errno.Some? && errno.value != AssertionFailure && r.Failed?
      && if r.errno != HeaderOverflow then errno.value == r.errno && told == before + r.events && p == r.read
         else r.read <= p < |data| && OverflowReported(r, data, p, errno.value, told, before)
    }

    /** The call fails as the run does. */
    ghost predicate Exactly(r: Run, p: nat, before: seq<Event>)
      reads this
    {
      errno.Some? && errno.value != AssertionFailure && r.Failed? && r.errno == errno.value && r.read == p &&
        told == before + r.events
    }

    /** The inner loop of s_header_field: the last of a row of token bytes, at most
        MAX_HEADER_SIZE of them. */
    method SkipTokens(data: Bytes, start: nat) returns (p: nat)
      requires start < |data| && TokenOf(data[start]) != 0
      ensures start <= p < |data| && forall j :: start <= j <= p ==> TokenOf(data[j]) != 0
    {
      p := start;
      var pe := p + if |data| - p < MAX_HEADER_SIZE then |data| - p else MAX_HEADER_SIZE;
      while p + 1 < pe && TokenOf(data[p + 1]) != 0
        invariant start <= p < pe <= |data| && forall j :: start <= j <= p ==> TokenOf(data[j]) != 0
      {
        p := p + 1;
      }
    }

    /** s_header_field: takes the name's bytes, and the byte that ends it. Leaves the place of
        the last byte taken. */
    method TakeField(data: Bytes, start: nat, marks: Marks, ghost r0: Run, ghost before: seq<Event>)
      returns (p: nat, marks': Marks)
      requires start < |data| <= MAX_DATA && it.state.HeaderField?
      requires Entered(At(r0, data, start), start, data, marks, before)
      requires Compatible(SlotOf(it.state), At(r0, data, start).open)
      modifies this
      ensures errno.None? ==> start <= p < |data| && Agrees(At(r0, data, p + 1), p + 1, data, marks', before)
      ensures errno.Some? ==> Refused(At(r0, data, |data|), data, p, before)
    {
      hide FieldChar, TokenOf, Next, At, Ahead, Framed;
      FramedNread(it);
      marks' := marks;
      p := start;
      ghost var base, m, events := it.nread - 1, marks[HeaderFieldText], At(r0, data, start).events;
      BatchEntered(At(r0, data, start), it, At(r0, data, start).open.value, events, p);
      while p < |data|
        invariant start <= p <= |data|
        invariant errno.None? && it.state.HeaderField? && it.nread == base + 1 && Framed(it) && told == before + events
        invariant m <= start && Ahead(At(r0, data, p), it, base, p - start, Piece(HeaderFieldText, data[m..p]),
                                      events, p)
      {
        if TokenOf(data[p]) == 0 {
          break;
        }
        ghost var from := p;
        if it.headerState.General? {
          p := SkipTokens(data, p);
        }
        FieldsTaken(r0, data, from, p, it, base, start, m, events);
        FieldTaken(r0, data, p, it, base, start, m, events);
        it := FieldChar(it, TokenOf(data[p])).value;
        p := p + 1;
      }
      if p == |data| {
        p := p - 1;
        BatchEnds(At(r0, data, |data|), it, base, |data| - start, Piece(HeaderFieldText, data[m..|data|]), events,
                  |data|);
        RecountFramed(it, base + |data| - start, it.state);
        Count(p - start);
        if errno.Some? {
          Spilled(r0, data, p, it, base, |data| - start, Piece(HeaderFieldText, data[m..|data|]), events);
        }
        return;
      }
      marks' := EndField(data, start, p, marks, r0, before, events);
    }

    /** The byte that ends a name, or is refused there. */
    method EndField(data: Bytes, start: nat, p: nat, marks: Marks, ghost r0: Run, ghost before: seq<Event>,
            ghost events: seq<Event>)
      returns (marks': Marks)
      requires start <= p < |data| <= MAX_DATA && TokenOf(data[p]) == 0
      requires errno.None? && it.state.HeaderField? && it.nread > 0 && Framed(it) && told == before + events
      requires marks.Keys == {HeaderFieldText} && marks[HeaderFieldText] <= start
      requires Ahead(At(r0, data, p), it, it.nread - 1, p - start,
                     Piece(HeaderFieldText, data[marks[HeaderFieldText]..p]), events, p)
      modifies this
      ensures errno.None? ==> Agrees(At(r0, data, p + 1), p + 1, data, marks', before)
      ensures errno.Some? ==> Refused(At(r0, data, |data|), data, p, before)
    {
      hide TokenOf, Next, At, Ahead;
      FramedNread(it);
      marks' := marks;
      ghost var base, m := it.nread - 1, marks[HeaderFieldText];
      AtNext(r0, data, p);
      FieldEnds(At(r0, data, p), it, base, p - start, data[m..p], events, p, data[p]);
      if it.nread + p - start > MAX_HEADER_SIZE {
        Spilled(r0, data, p, it, base, p + 1 - start, Piece(HeaderFieldText, data[m..p] + [data[p]]), events);
      }
      Count(p - start);
      if errno.Some? {
        return;
      }
      if data[p] == COLON {
        it := it.(state := AroundValue(HeaderValueDiscardWs));
        marks' := Callback(marks, HeaderFieldText, data, p);
      } else {
        errno := Some(InvalidHeaderToken);
        AtFailed(r0, data, p + 1);
      }
    }

    /** The inner loop of s_header_value: bytes that need no more than a look, at most
        MAX_HEADER_SIZE of them. When it stops there, the byte at `p` is passed unseen. */
    method SkipValue(data: Bytes, start: nat) returns (p: nat, ok: bool)
      requires start < |data| && PlainChar(it, data[start])
      ensures start <= p < |data|
      ensures ok ==> p <= start + MAX_HEADER_SIZE && forall j :: start <= j <= p && j < start + MAX_HEADER_SIZE ==>
                PlainChar(it, data[j])
      ensures !ok ==>
                data[p] != CR && data[p] != LF && !it.lenient && !IsHeaderChar(data[p]) &&
                forall j :: start <= j < p ==> PlainChar(it, data[j])
    {
      p := start;
      var pe := p + if |data| - p < MAX_HEADER_SIZE then |data| - p else MAX_HEADER_SIZE;
      while p != pe
        invariant start <= p <= pe <= |data| && pe > start && forall j :: start <= j < p ==> PlainChar(it, data[j])
        decreases pe - p
      {
        if data[p] == CR || data[p] == LF {
          p := p - 1;
          return p, true;
        }
        if !it.lenient && !IsHeaderChar(data[p]) {
          return p, false;
        }
        p := p + 1;
      }
      if p == |data| {
        p := p - 1;
      }
      return p, true;
    }

    /** s_header_value: takes the value's bytes, and the CR or LF that ends it. */
    method TakeValue(data: Bytes, start: nat, marks: Marks, ghost r0: Run, ghost before: seq<Event>)
      returns (p: nat, marks': Marks)
      requires start < |data| <= MAX_DATA && it.state.HeaderValue?
      requires Entered(At(r0, data, start), start, data, marks, before)
      requires Compatible(SlotOf(it.state), At(r0, data, start).open)
      modifies this
      ensures errno.None? ==> start <= p < |data| && Agrees(At(r0, data, p + 1), p + 1, data, marks', before)
      ensures errno.Some? ==> Refused(At(r0, data, |data|), data, p, before)
    {
      hide ValueChar, IsHeaderChar, Next, At, Ahead, Framed;
      FramedNread(it);
      marks' := marks;
      p := start;
      ghost var base, m, events := it.nread - 1, marks[HeaderValueText], At(r0, data, start).events;
      ghost var open := At(r0, data, start).open;
      BatchEntered(At(r0, data, start), it, open.value, events, p);
      while p < |data|
        invariant start <= p <= |data|
        invariant errno.None? && it.state.HeaderValue? && it.nread == base + 1 && Framed(it) &&
                  told == before + events && marks' == marks
        invariant m <= start && Ahead(At(r0, data, p), it, base, p - start, Piece(HeaderValueText, data[m..p]),
                                      events, p)
      {
        var ch := data[p];
        if ch == CR || ch == LF {
          marks' := EndValue(data, start, p, marks, r0, before, events);
          return;
        }
        p := PassValue(data, p, r0, before, events, base, start, m);
        if errno.Some? {
          return;
        }
        p := p + 1;
      }
      BatchEnds(At(r0, data, p), it, base, p - start, Piece(HeaderValueText, data[m..p]), events, p);
      RecountFramed(it, base + p - start, it.state);
      p := p - 1;
      Count(p - start);
      if errno.Some? {
        Spilled(r0, data, p, it, base, |data| - start, Piece(HeaderValueText, data[m..|data|]), events);
      }
    }

    /** The other bytes of s_header_value: one that the header state looks at, or a row of those
        that it does not. Leaves the place of the last byte taken. */
    method PassValue(data: Bytes, from: nat, ghost r0: Run, ghost before: seq<Event>, ghost events: seq<Event>,
            ghost base: nat, ghost start: nat, ghost m: nat)
      returns (p: nat)
      requires m <= start <= from < |data| && data[from] != CR && data[from] != LF
      requires errno.None? && it.state.HeaderValue? && Framed(it) && told == before + events
      requires Ahead(At(r0, data, from), it, base, from - start, Piece(HeaderValueText, data[m..from]), events, from)
      modifies `it, `errno
      ensures from <= p < |data|
      ensures errno.None? ==>
                it.state.HeaderValue? && it.nread == old(it.nread) && Framed(it) &&
                Ahead(At(r0, data, p + 1), it, base, p + 1 - start, Piece(HeaderValueText, data[m..p + 1]), events,
                      p + 1)
      ensures errno.Some? ==> Refused(At(r0, data, |data|), data, p, before)
    {
      hide ValueChar, IsHeaderChar, Next, At, Ahead, Framed;
      var ch := data[from];
      p := from;
      if !it.lenient && !IsHeaderChar(ch) {
        ValueFails(r0, data, p, it, base, start, m, events, InvalidHeaderToken);
        errno := Some(InvalidHeaderToken);
        return;
      }
      if it.headerState.General? {
        var ok;
        p, ok := SkipValue(data, p);
        Skipped(r0, data, from, p, ok, it, base, start, m, events);
        errno := if ok then None else Some(InvalidHeaderToken);
        return;
      }
      ValueCharStays(it, ch);
      match ValueChar(it, ch) {
        case Failing(e, _, _) =>
          ValueCharErrors(it, ch);
          ValueFails(r0, data, p, it, base, start, m, events, e);
          errno := Some(e);
        case Go(q, _, _) =>
          ValueTaken(r0, data, p, it, base, start, m, events);
          it := q;
      }
    }

    /** The CR and LF cases of s_header_value. */
    method EndValue(data: Bytes, start: nat, p: nat, marks: Marks, ghost r0: Run, ghost before: seq<Event>,
            ghost events: seq<Event>)
      returns (marks': Marks)
      requires start <= p < |data| <= MAX_DATA && (data[p] == CR || data[p] == LF)
      requires errno.None? && it.state.HeaderValue? && it.nread > 0 && Framed(it) && told == before + events
      requires marks.Keys == {HeaderValueText} && marks[HeaderValueText] <= start
      requires Ahead(At(r0, data, p), it, it.nread - 1, p - start,
                     Piece(HeaderValueText, data[marks[HeaderValueText]..p]), events, p)
      modifies this
      ensures errno.None? ==> Agrees(At(r0, data, p + 1), p + 1, data, marks', before)
      ensures errno.Some? ==> Refused(At(r0, data, |data|), data, p, before)
    {
      hide Next, At, Ahead, Framed;
      ghost var m := marks[HeaderValueText];
      FramedNread(it);
      RecountFramed(it, it.nread + p - start, AroundValue(if data[p] == CR then HeaderAlmostDone else HeaderValueLws));
      ValueEnds(At(r0, data, p), it, it.nread - 1, p - start, data[m..p], events, p, data[p]);
      AtNext(r0, data, p);
      if it.nread + p - start > MAX_HEADER_SIZE {
        ValueSpilled(r0, data, start, p, it, it.nread - 1, m, events);
      }
      it := it.(state := AroundValue(HeaderAlmostDone));
      if data[p] == CR {
        marks' := Callback(marks, HeaderValueText, data, p);
        Count(p - start);
      } else {
        Count(p - start);
        if errno.Some? {
          return marks;
        }
        marks' := Callback(marks, HeaderValueText, data, p);
        it := it.(state := AroundValue(HeaderValueLws));
      }
    }

    /** MARK and CALLBACK_DATA, as one turn asks for them. */
    method Perform(ops: seq<Op>, data: Bytes, p: nat, marks: Marks, ghost open: Option<Piece>) returns (marks': Marks)
      requires p < |data| && Marked(marks, data, p, open) && Fits(open, ops, data[p])
      modifies `told
      ensures Marked(marks', data, p, PerformAll(open, ops, data[p]).0)
      ensures told == old(told) + PerformAll(open, ops, data[p]).1
    {
      marks' := marks;
      ghost var o := open;
      var i := 0;
      assert ops[0..] == ops;
      while i < |ops|
        invariant 0 <= i <= |ops| && Marked(marks', data, p, o) && Fits(o, ops[i..], data[p])
        invariant PerformAll(open, ops, data[p]).0 == PerformAll(o, ops[i..], data[p]).0
        invariant told + PerformAll(o, ops[i..], data[p]).1 == old(told) + PerformAll(open, ops, data[p]).1
      {
        var op := ops[i];
        assert ops[i..][0] == op && ops[i..][1..] == ops[i + 1..];
        ghost var was := told;
        if !op.Close? && op.kind !in marks' {
          marks' := marks'[op.kind := p];
        }
        ghost var m := if op.kind in marks' then marks'[op.kind] else p;
        OneMore(data, m, p);
        if !op.Open? {
          marks' := Callback(marks', op.kind, data, if op.Finish? then p + 1 else p);
        }
        ghost var (o', es) := HttpRun.Perform(o, op, data[p]);
        assert told == was + es;
        Told(was, es, PerformAll(o', ops[i + 1..], data[p]).1);
        o := o';
        i := i + 1;
      }
    }

    /** A state that takes its bytes one at a time. */
    method TakeOne(data: Bytes, p: nat, marks: Marks, ghost r: Run, ghost before: seq<Event>)
      returns (marks': Marks, stop: bool)
      requires p < |data| && errno.None? && r.Running? && r.read == p && told == before + r.events && Framed(r.p)
      requires Marked(marks, data, p, r.open) && Compatible(SlotOf(r.p.state), r.open)
      requires Byte(r.p, data[p]) == Switch(it, data[p])
      modifies this
      ensures errno.None? && !stop ==> Agrees(Next(r, data[p]), p + 1, data, marks', before)
      ensures stop ==> Ends(Next(r, data[p]), p + 1, before)
      ensures errno.Some? ==> Exactly(Next(r, data[p]), p, before)
    {
      hide Byte, Switch, Framed, Compatible, Shape, FailShape, Fits, PerformAll;
      marks', stop := marks, false;
      ByteKeeps(r.p, data[p]);
      ByteShape(r.p, data[p]);
      match Switch(it, data[p]) {
        case Failing(e, ops, notes) =>
          FailFits(SlotOf(r.p.state), r.open, ops, notes, data[p]);
          marks' := Perform(ops, data, p, marks, r.open);
          told := told + notes;
          errno := Some(e);
        case Go(q, ops, notes) =>
          ShapeFits(SlotOf(r.p.state), r.open, ops, notes, SlotOf(q.state), data[p]);
          marks' := Perform(ops, data, p, marks, r.open);
          MarkedGrow(marks', data, p, PerformAll(r.open, ops, data[p]).0);
          told := told + notes;
          it := q;
        case Quit(q, ops, notes) =>
          ShapeFits(SlotOf(r.p.state), r.open, ops, notes, Outside, data[p]);
          marks' := Perform(ops, data, p, marks, r.open);
          told := told + notes;
          it := q;
          stop := true;
      }
    }

    /** The call has stopped, because another protocol follows. */
    ghost predicate Ends(r: Run, n: nat, before: seq<Event>)
      reads this
    {
      errno.None? && r.Stopped? && r.p == it && r.read == n && told == before + r.events && Framed(it)
    }

    /** s_body_identity, s_body_identity_eof and s_chunk_data: all the body there is, at once. */
    method TakeBody(data: Bytes, start: nat, marks: Marks, ghost r0: Run, ghost before: seq<Event>)
      returns (p: nat, marks': Marks, stop: bool)
      requires start < |data| && BodyState(it.state) && Agrees(At(r0, data, start), start, data, marks, before)
      requires Compatible(SlotOf(it.state), At(r0, data, start).open)
      modifies this
      ensures errno.None? && start <= p < |data|
      ensures if stop then Ends(At(r0, data, p + 1), p + 1, before)
              else Agrees(At(r0, data, p + 1), p + 1, data, marks', before)
    {
      hide At, Next, NewMessage, Framed;
      BodyLength(it);
      stop := false;
      marks' := if BodyText in marks then marks else marks[BodyText := start];
      ghost var q, m, events := it, marks'[BodyText], At(r0, data, start).events;
      if it.state.BodyIdentityEof? {
        BodyTaken(r0, data, start, |data|, q, marks, m, events);
        p := |data| - 1;
        return;
      }
      assert it.contentLength != 0 && it.contentLength != ABSENT;
      var toRead := if it.contentLength < |data| - start then it.contentLength else |data| - start;
      it := it.(contentLength := it.contentLength - toRead);
      p := start + toRead - 1;
      if it.contentLength != 0 || it.state.InChunk? {
        BodyTaken(r0, data, start, p + 1, q, marks, m, events);
        if it.contentLength == 0 {
          it := it.(state := InChunk(ChunkDataAlmostDone));
        }
      } else {
        BodyCompletes(r0, data, start, p, q, marks, m, events);
        marks', stop := EndBody(data, p, marks');
      }
    }

    /** The end of a body of known length, and s_message_done. */
    method EndBody(data: Bytes, p: nat, marks: Marks) returns (marks': Marks, stop: bool)
      requires p < |data| && marks.Keys == {BodyText} && marks[BodyText] <= p
      modifies this
      ensures it == old(it).(state := NewMessage(old(it))) && errno == old(errno) && stop == it.upgrade &&
              marks' == map[]
      ensures told == old(told) + [Data(BodyText, data[marks[BodyText]..p + 1])] + [MessageComplete]
    {
      AnyState(it);
      it := it.(state := Ending(MessageDone));
      marks' := Callback(marks, BodyText, data, p + 1);
      it := it.(state := NewMessage(it));
      told := told + [MessageComplete];
      stop := it.upgrade;
    }

    /** http_parser_execute with no data: the end of the connection. */
    method AtEnd() returns (read: nat)
      requires errno.None?
      modifies this
      ensures it == old(it) && read == (if errno.Some? then 1 else 0)
      ensures told == old(told) + if it.state.BodyIdentityEof? then [MessageComplete] else []
      ensures errno == if it.state.BodyIdentityEof? || Idle(it.state) then None else Some(InvalidEofState)
    {
      if it.state.BodyIdentityEof? {
        told := told + [MessageComplete];
        return 0;
      }
      if Idle(it.state) {
        return 0;
      }
      errno := Some(InvalidEofState);
      return 1;
    }

    /** The callbacks for marks left over when the data runs out. At most one is set. */
    method FlushAll(data: Bytes, marks: Marks, ghost open: Option<Piece>)
      requires Marked(marks, data, |data|, open)
      modifies `told
      ensures told == old(told) + Pending(open)
    {
      assert |marks| <= 1;
      var m := Leftover(marks, marks, HeaderFieldText, data, open, told);
      m := Leftover(m, marks, HeaderValueText, data, open, old(told));
      m := Leftover(m, marks, UrlText, data, open, old(told));
      m := Leftover(m, marks, BodyText, data, open, old(told));
      m := Leftover(m, marks, StatusText, data, open, old(told));
      assert open.Some? ==> m == map[] by {
        if open.Some? {
          match open.value.kind {
            case HeaderFieldText | HeaderValueText | UrlText | BodyText | StatusText => assert open.value.kind in marks;
          }
        }
      }
      assert old(told) + [] == old(told);
    }

    /** One of them: the callback is due for exactly one kind, or none. */
    method Leftover(m: Marks, ghost marks: Marks, kind: Kind, data: Bytes, ghost open: Option<Piece>,
            ghost before: seq<Event>)
      returns (m': Marks)
      requires Marked(marks, data, |data|, open)
      requires (m == marks && told == before) || (m == map[] && told == before + Pending(open))
      modifies `told
      ensures kind !in m'
      ensures (m' == m == marks && told == before) || (m' == map[] && told == before + Pending(open))
    {
      m' := Callback(m, kind, data, |data|);
      assert told == old(told) || told == before + Pending(open);
    }

    /** http_parser_execute: on data that is not empty it does exactly what Call says, and
        fails exactly as Call does unless the header overflows. */
    method Execute(data: Bytes) returns (read: nat)
      requires Valid() && |data| <= MAX_DATA
      modifies this
      ensures Valid()
      ensures old(errno).Some? ==> read == 0 && it == old(it) && errno == old(errno) && told == old(told)
      ensures old(errno).None? && data != [] ==>
                var r := Call(old(it), data);
                if r.Failed? then Refused(r, data, read, old(told))
                else
                  errno.None? && it == r.p && told == old(told) + r.events && read == r.read &&
                  (r.Running? ==> read == |data|)
      ensures old(errno).None? && data == [] ==>
                it == old(it) && read == (if errno.Some? then 1 else 0) &&
                told == old(told) + (if it.state.BodyIdentityEof? then [MessageComplete] else []) &&
                errno == if it.state.BodyIdentityEof? || Idle(it.state) then None else Some(InvalidEofState)
      ensures old(errno).None? ==> errno != Some(AssertionFailure)
    {
      if errno.Some? {
        return 0;
      }
      if data == [] {
        read := AtEnd();
        return;
      }
      read := Run(data);
    }

    /** What one call on the whole data would do, up to where callbacks for data are cut. Where
        it fails, data under way is never told; everything told before it is, and beyond that
        at most the beginning of that data. Says nothing of a header that overflows, nor of
        data left when another protocol begins. */
    ghost predicate Delivered(whole: Run, total: nat, read: nat, before: seq<Event>)
      reads this
    {
      match whole
      case Running(p, _, ev, n) => Concluded(p, ev, n, read, before)
      case Stopped(p, ev, n) => n == total ==> Concluded(p, ev, n, read, before)
      case Failed(e, open, ev, n) =>
        e == HeaderOverflow ||
        (errno == Some(e) && read == n && before <= told && TellsAtLeast(open, ev, told[|before|..]))
    }

    /** The calls have ended without error, with this parser, events and bytes read. */
    ghost predicate Concluded(p: Parser, ev: seq<Event>, n: nat, read: nat, before: seq<Event>)
      reads this
    {
      errno.None? && it == p && read == n && before <= told && Join(told[|before|..]) == Join(ev)
    }

    /** The calls of a session that hands over data as it arrives, until a call fails: the
        pieces do not matter. */
    method ExecuteAll(pieces: seq<Bytes>) returns (read: nat)
      requires Valid() && errno.None? && pieces != [] && AllHaveData(pieces)
      requires forall k :: 0 <= k < |pieces| ==> |pieces[k]| <= MAX_DATA
      modifies this
      ensures Valid() && errno != Some(AssertionFailure)
      ensures Delivered(Call(old(it), Flatten(pieces)), |Flatten(pieces)|, read, old(told))
    {
      hide Call, Calls, Join, Framed, Prepend, Lag, TellsAtLeast, Flatten;
      ghost var before, events, all, total := told, [], Calls(it, pieces), |Flatten(pieces)|;
      ghost var live := true;
      CutIndependence(it, pieces);
      read := 0;
      var i := 0;
      assert pieces[0..] == pieces;
      PrependNothing(all);
      while i < |pieces|
        invariant 0 <= i <= |pieces| && Valid() && errno != Some(AssertionFailure)
        invariant live ==>
                    errno.None? && told == before + events &&
                    all == Prepend(events, read, Calls(it, pieces[i..]))
        invariant live ==> read + |Flatten(pieces[i..])| == total
        invariant !live ==> all.Stopped? && (all.read == total ==>
                    i == |pieces| && errno.None? && it == all.p && read == total && told == before + all.events)
      {
        ghost var from, was, was_live := it, told, live;
        assert pieces[i..][0] == pieces[i] && pieces[i..][1..] == pieces[i + 1..];
        var n := Execute(pieces[i]);
        if live {
          FirstOf(all, events, read, from, pieces[i..]);
          PieceRead(from, pieces[i..]);
          events := events + Call(from, pieces[i]).events;
          Told(before, was[|before|..], Call(from, pieces[i]).events);
          live := !Call(from, pieces[i]).Stopped?;
        }
        read := read + n;
        if errno.Some? {
          if was_live {
            FailedTells(Call(old(it), Flatten(pieces)), all);
            ToldSince(before, events);
          }
          return;
        }
        i := i + 1;
      }
      if live {
        NoMoreCalls(it, events, read);
        ToldSince(before, events);
      } else {
        ToldSince(before, all.events);
      }
    }

    /** The loop over the data, and the callbacks left over after it. */
    method Run(data: Bytes) returns (read: nat)
      requires Valid() && errno.None? && 0 < |data| <= MAX_DATA
      modifies this
      ensures Valid() && errno != Some(AssertionFailure)
      ensures var r := Call(old(it), data);
              if r.Failed? then Refused(r, data, read, old(told))
              else
                errno.None? && it == r.p && told == old(told) + r.events && read == r.read &&
                (r.Running? ==> read == |data|)
    {
      hide At, Next, Framed, Byte, Switch, Marked;
      var marks: Marks := match SlotOf(it.state) case Inside(k) => map[k := 0] case _ => map[];
      ghost var r0, before := Start(it), told;
      AtStart(it, data);
      MarkedStart(it, data, marks);
      var p := 0;
      while p < |data|
        invariant p <= |data| && Agrees(At(r0, data, p), p, data, marks, before)
        decreases |data| - p
      {
        AtCompatible(old(it), data, p);
        var stop;
        p, marks, stop := Turn(data, p, marks, r0, before);
        if errno.Some? {
          return p;
        }
        if stop {
          AtStopped(r0, data, p + 1);
          return p + 1;
        }
        p := p + 1;
      }
      ghost var r := At(r0, data, p);
      FlushAll(data, marks, r.open);
      assert before + (r.events + Pending(r.open)) == told;
      return |data|;
    }

    /** One turn of the loop: counts the byte, and takes it, or the batch it starts. Leaves
        the place of the last byte taken. */
    method Turn(data: Bytes, start: nat, marks: Marks, ghost r0: Run, ghost before: seq<Event>)
      returns (p: nat, marks': Marks, stop: bool)
      requires start < |data| <= MAX_DATA && Agrees(At(r0, data, start), start, data, marks, before)
      requires Compatible(SlotOf(it.state), At(r0, data, start).open)
      modifies this
      ensures errno.None? ==> start <= p < |data|
      ensures errno.None? && !stop ==> Agrees(At(r0, data, p + 1), p + 1, data, marks', before)
      ensures stop ==> errno.None? && Ends(At(r0, data, p + 1), p + 1, before)
      ensures errno.Some? ==> Refused(At(r0, data, |data|), data, p, before)
    {
      hide At, Next, Framed, Byte, Switch, Compatible, Marked;
      ghost var r := At(r0, data, start);
      p, marks', stop := start, marks, false;
      if BodyState(it.state) {
        p, marks', stop := TakeBody(data, p, marks, r0, before);
        return;
      }
      AtNext(r0, data, start);
      StepTurn(it, data[p]);
      if ParsingHeader(it.state) {
        FramedNread(it);
        Count(1);
        if errno.Some? {
          Refuses(r, data[p], HeaderOverflow);
          AtFailed(r0, data, p + 1);
          return;
        }
      }
      if it.state.HeaderField? {
        p, marks' := TakeField(data, p, marks, r0, before);
      } else if it.state.HeaderValue? {
        p, marks' := TakeValue(data, p, marks, r0, before);
      } else {
        marks', stop := TakeOne(data, p, marks, r, before);
        if errno.Some? {
          AtFailed(r0, data, p + 1);
        }
      }
    }
  }

  lemma OneMore(data: Bytes, m: nat, p: nat)
    requires m <= p < |data|
    ensures data[m..p + 1] == data[m..p] + [data[p]]
  {
  }

  lemma Told(a: seq<Event>, b: seq<Event>, c: seq<Event>)
    ensures a + (b + c) == a + b + c
  {
  }

  /** What the first of some calls leaves to the others. */
  lemma FirstOf(all: Run, events: seq<Event>, read: nat, from: Parser, pieces: seq<Bytes>)
    requires pieces != [] && all == Prepend(events, read, Calls(from, pieces))
    ensures var first := Call(from, pieces[0]);
            if first.Running? then all == Prepend(events + first.events, read + first.read, Calls(first.p, pieces[1..]))
            else if first.Stopped? then all == Stopped(first.p, events + first.events, read + first.read)
            else all == Failed(first.errno, first.open, events + first.events, read + first.read)
  {
    hide Call;
    var first := Call(from, pieces[0]);
    if first.Running? {
      PrependTwice(events, read, first.events, first.read, Calls(first.p, pieces[1..]));
    }
  }

  /** A call reads no more than its data, and all of it unless it stops. */
  lemma {:induction false} RunReads(r: Run, data: Bytes)
    requires r.Running?
    ensures var e := RunFrom(r, data); e.read <= r.read + |data| && (e.Running? ==> e.read == r.read + |data|)
    decreases |data|
  {
    hide Byte, PerformAll;
    if data != [] { RunReads(r, data[..|data| - 1]); }
  }

  lemma PieceRead(p: Parser, pieces: seq<Bytes>)
    requires pieces != [] && AllHaveData(pieces)
    ensures var r := Call(p, pieces[0]);
            r.read <= |pieces[0]| && (r.Running? ==> r.read == |pieces[0]|)
    ensures |Flatten(pieces)| == |pieces[0]| + |Flatten(pieces[1..])|
    ensures Flatten(pieces[1..]) == [] ==> |pieces| == 1
  {
    hide RunFrom;
    RunReads(Start(p), pieces[0]);
    if |pieces| > 1 { assert Flatten(pieces[1..]) == pieces[1] + Flatten(pieces[1..][1..]); }
  }

  lemma FailedTells(whole: Run, all: Run)
    requires Same(whole, all)
    ensures whole.Failed? ==> TellsAtLeast(whole.open, whole.events, all.events)
  {
    hide Join, Lag;
    if whole.Failed? { LagTells(whole.open, whole.events, all.open, all.events); }
  }

  lemma NoMoreCalls(p: Parser, events: seq<Event>, read: nat)
    ensures Prepend(events, read, Calls(p, [])) == Running(p, None, events, read)
  {
    assert events + [] == events;
  }

  lemma ToldSince(before: seq<Event>, events: seq<Event>)
    ensures before <= before + events && (before + events)[|before|..] == events
  {
  }

  lemma PrependNothing(r: Run)
    ensures Prepend([], 0, r) == r
  {
    if r.Running? { assert [] + r.events == r.events; }
  }

  lemma PrependTwice(a: seq<Event>, m: nat, b: seq<Event>, n: nat, r: Run)
    ensures Prepend(a, m, Prepend(b, n, r)) == Prepend(a + b, m + n, r)
  {
    assert a + (b + r.events) == a + b + r.events;
  }

  /** A batch whose bytes up to `p` have overflowed. */
  lemma Spilled(r0: Run, data: Bytes, p: nat, q: Parser, base: nat, k: nat, d: Piece, events: seq<Event>)
    requires p < |data| && base + k > MAX_HEADER_SIZE && Ahead(At(r0, data, p + 1), q, base, k, d, events, p + 1)
    ensures var over := base + k - MAX_HEADER_SIZE;
            over <= p + 1 && over <= |d.bytes| &&
              At(r0, data, |data|) == Overflowed(d.kind, d.bytes, events, p + 1, over)
  {
    AtFailed(r0, data, p + 1);
  }

  lemma ValueSpilled(r0: Run, data: Bytes, start: nat, p: nat, q: Parser, base: nat, m: nat, events: seq<Event>)
    requires m <= start <= p < |data| && base + p + 1 - start > MAX_HEADER_SIZE
    requires Ahead(At(r0, data, p + 1), q, base, p + 1 - start, Piece(HeaderValueText, data[m..p] + [data[p]]),
                   events, p + 1)
    ensures var r := At(r0, data, |data|);
            r.Failed? && r.errno == HeaderOverflow && r.events == events && r.read <= p &&
            r.open.Some? && r.open.value.kind == HeaderValueText && r.open.value.bytes + data[r.read..p] == data[m..p]
  {
    hide At, Ahead;
    Spilled(r0, data, p, q, base, p + 1 - start, Piece(HeaderValueText, data[m..p] + [data[p]]), events);
    SpilledText(data, m, p, base + p + 1 - start - MAX_HEADER_SIZE);
  }

  lemma SpilledText(data: Bytes, m: nat, p: nat, over: nat)
    requires m <= p < |data| && 0 < over <= p + 1 - m
    ensures var text := data[m..p] + [data[p]]; text[..|text| - over] + data[p + 1 - over..p] == data[m..p]
  {
    var text := data[m..p] + [data[p]];
    assert text[..|text| - over] == data[m..p + 1 - over];
  }

  lemma FieldEnds(r: Run, q: Parser, base: nat, k: nat, text: Bytes, events: seq<Event>, n: nat, ch: byte)
    requires Ahead(r, q, base, k, Piece(HeaderFieldText, text), events, n) && q.state.HeaderField? && TokenOf(ch) == 0
    ensures if base + k + 1 > MAX_HEADER_SIZE then
            Ahead(Next(r, ch), q, base, k + 1, Piece(HeaderFieldText, text + [ch]), events, n + 1)
            else if ch != COLON then Next(r, ch) ==
              Failed(InvalidHeaderToken, Some(Piece(HeaderFieldText, text)), events, n)
            else Next(r, ch) == Running(q.(nread := base + k + 1, state := AroundValue(HeaderValueDiscardWs)), None,
                         events + [Data(HeaderFieldText, text)], n + 1)
  {
    hide Byte, TokenOf;
    var open := Some(Piece(HeaderFieldText, text));
    if base + k + 1 > MAX_HEADER_SIZE {
      Overflows(r, q, base, k, open.value, events, n, ch, q);
    } else {
      ByteInField(q.(nread := base + k), ch);
      assert PerformAll(open, [], ch) == (open, []);
      assert events + [] + [] == events;
      OnePerformed(open, [Close(HeaderFieldText)], ch);
      assert events + [Data(HeaderFieldText, text)] + [] == events + [Data(HeaderFieldText, text)];
    }
  }

  lemma BatchEnds(r: Run, q: Parser, base: nat, k: nat, d: Piece, events: seq<Event>, n: nat)
    requires Ahead(r, q, base, k, d, events, n)
    ensures if base + k <= MAX_HEADER_SIZE then r == Running(q.(nread := base + k), Some(d), events, n)
            else base + k - MAX_HEADER_SIZE <= n && base + k - MAX_HEADER_SIZE <= |d.bytes| &&
                 r == Overflowed(d.kind, d.bytes, events, n, base + k - MAX_HEADER_SIZE)
  {
  }

  lemma FieldTaken(r0: Run, data: Bytes, p: nat, q: Parser, base: nat, start: nat, m: nat, events: seq<Event>)
    requires m <= start <= p < |data| && q.state.HeaderField? && Framed(q) && TokenOf(data[p]) != 0
    requires Ahead(At(r0, data, p), q, base, p - start, Piece(HeaderFieldText, data[m..p]), events, p)
    ensures FieldChar(q, TokenOf(data[p])).Some?
    ensures var q' := FieldChar(q, TokenOf(data[p])).value;
            Framed(q') && q'.state.HeaderField? && q'.nread == q.nread && (q.headerState.General? ==> q' == q) &&
            Ahead(At(r0, data, p + 1), q', base, p + 1 - start, Piece(HeaderFieldText, data[m..p + 1]), events, p + 1)
  {
    hide Next, TokenOf, FieldChar, Ahead, At, Framed;
    AtNext(r0, data, p);
    NameByteKeeps(q, TokenOf(data[p]));
    FieldStep(At(r0, data, p), q, base, p - start, data[m..p], events, p, data[p]);
    assert data[m..p] + [data[p]] == data[m..p + 1];
  }

  lemma NameByteKeeps(q: Parser, c: byte)
    requires q.state.HeaderField? && Framed(q)
    ensures FieldChar(q, c).Some?
    ensures var q' := FieldChar(q, c).value;
            Framed(q') && q'.state.HeaderField? && q'.nread == q.nread && (q.headerState.General? ==> q' == q)
  {
    GeneralField(q, c);
    hide FieldChar;
    FieldCharKeeps(q, c);
  }

  lemma GeneralField(q: Parser, c: byte)
    ensures q.headerState.General? ==> FieldChar(q, c) == Some(q)
  {
  }

  lemma {:induction false} FieldsTaken(r0: Run, data: Bytes, p: nat, end: nat, q: Parser, base: nat, start: nat,
          m: nat, events: seq<Event>)
    requires m <= start <= p <= end < |data| && q.state.HeaderField? && Framed(q)
    requires p < end ==> q.headerState.General?
    requires forall j :: p <= j < end ==> TokenOf(data[j]) != 0
    requires Ahead(At(r0, data, p), q, base, p - start, Piece(HeaderFieldText, data[m..p]), events, p)
    ensures Ahead(At(r0, data, end), q, base, end - start, Piece(HeaderFieldText, data[m..end]), events, end)
    decreases end - p
  {
    hide TokenOf, At, Ahead, Framed, FieldChar;
    if p < end {
      FieldTaken(r0, data, p, q, base, start, m, events);
      FieldsTaken(r0, data, p + 1, end, q, base, start, m, events);
    }
  }

  predicate PlainChar(q: Parser, ch: byte) {
    ch != CR && ch != LF && (q.lenient || IsHeaderChar(ch))
  }

  lemma BatchEntered(r: Run, q: Parser, d: Piece, events: seq<Event>, n: nat)
    requires 0 < q.nread <= MAX_HEADER_SIZE && r == Running(q.(nread := q.nread - 1), Some(d), events, n)
    ensures Ahead(r, q, q.nread - 1, 0, d, events, n)
  {
  }

  lemma ValueEnds(r: Run, q: Parser, base: nat, k: nat, text: Bytes, events: seq<Event>, n: nat, ch: byte)
    requires Ahead(r, q, base, k, Piece(HeaderValueText, text), events, n) && q.state.HeaderValue? &&
             (ch == CR || ch == LF)
    ensures if base + k + 1 > MAX_HEADER_SIZE then
            Ahead(Next(r, ch), q, base, k + 1, Piece(HeaderValueText, text + [ch]), events, n + 1)
            else Next(r, ch) == Running(q.(nread := base + k + 1,
                                           state := AroundValue(if ch == CR then HeaderAlmostDone else HeaderValueLws)),
                         None, events + [Data(HeaderValueText, text)], n + 1)
  {
    hide Byte, ValueChar;
    var open := Some(Piece(HeaderValueText, text));
    if base + k + 1 > MAX_HEADER_SIZE {
      Overflows(r, q, base, k, open.value, events, n, ch, q);
    } else {
      ByteInValue(q.(nread := base + k), ch);
      OnePerformed(open, [Close(HeaderValueText)], ch);
      assert events + [Data(HeaderValueText, text)] + [] == events + [Data(HeaderValueText, text)];
    }
  }

  lemma ValueFails(r0: Run, data: Bytes, p: nat, q: Parser, base: nat, start: nat, m: nat, events: seq<Event>, e: Errno)
    requires m <= start <= p < |data| && q.state.HeaderValue? && Framed(q) && data[p] != CR && data[p] != LF
    requires if !q.lenient && !IsHeaderChar(data[p]) then e == InvalidHeaderToken else ValueChar(q, data[p]) == Fail(e)
    requires Ahead(At(r0, data, p), q, base, p - start, Piece(HeaderValueText, data[m..p]), events, p)
    ensures FailsInValue(At(r0, data, |data|), p, e, events)
  {
    hide Next, ValueChar, IsHeaderChar, Ahead;
    ValueCharKeeps(q, data[p]);
    ValueCharErrors(q, data[p]);
    var d := Piece(HeaderValueText, data[m..p]);
    ValueRefused(At(r0, data, p), q, base, p - start, d, events, p, data[p], e);
    AtNext(r0, data, p);
    if base + p - start + 1 > MAX_HEADER_SIZE {
      BatchEnds(At(r0, data, p + 1), q, base, p - start + 1, Piece(HeaderValueText, d.bytes + [data[p]]), events,
                p + 1);
    }
    AtFailed(r0, data, p + 1);
  }

  lemma ValueCharErrors(q: Parser, ch: byte)
    ensures var t := ValueChar(q, ch); t.Failing? ==> t.errno == InvalidContentLength || t.errno == AssertionFailure
  {
    hide MatchWord, TokenOf;
  }

  lemma ValueTaken(r0: Run, data: Bytes, p: nat, q: Parser, base: nat, start: nat, m: nat, events: seq<Event>)
    requires m <= start <= p < |data| && q.state.HeaderValue? && Framed(q) && PlainChar(q, data[p]) &&
             !ValueChar(q, data[p]).Failing?
    requires Ahead(At(r0, data, p), q, base, p - start, Piece(HeaderValueText, data[m..p]), events, p)
    ensures ValueChar(q, data[p]).Go?
    ensures var q' := ValueChar(q, data[p]).p;
            Framed(q') && q'.state.HeaderValue? && q'.nread == q.nread &&
            Ahead(At(r0, data, p + 1), q', base, p + 1 - start, Piece(HeaderValueText, data[m..p + 1]), events, p + 1)
  {
    hide Next, ValueChar, Ahead;
    AtNext(r0, data, p);
    ValueCharKeeps(q, data[p]);
    ValueCharStays(q, data[p]);
    ValueCharCounts(q, data[p], 0);
    ValueStep(At(r0, data, p), q, base, p - start, data[m..p], events, p, data[p]);
    assert data[m..p] + [data[p]] == data[m..p + 1];
  }

  lemma GeneralValue(q: Parser, ch: byte)
    requires q.headerState.General? && q.state.HeaderValue?
    ensures ValueChar(q, ch) == Go(q, [], [])
  {
  }

  lemma {:induction false} ValuesTaken(r0: Run, data: Bytes, p: nat, end: nat, q: Parser, base: nat, start: nat,
          m: nat, events: seq<Event>)
    requires m <= start <= p <= end <= |data| && q.state.HeaderValue? && Framed(q) && q.headerState.General?
    requires forall j :: p <= j < end ==> PlainChar(q, data[j])
    requires Ahead(At(r0, data, p), q, base, p - start, Piece(HeaderValueText, data[m..p]), events, p)
    ensures Ahead(At(r0, data, end), q, base, end - start, Piece(HeaderValueText, data[m..end]), events, end)
    decreases end - p
  {
    hide At, Ahead, Framed, ValueChar, PlainChar;
    if p < end {
      GeneralValue(q, data[p]);
      ValueTaken(r0, data, p, q, base, start, m, events);
      ValuesTaken(r0, data, p + 1, end, q, base, start, m, events);
    }
  }

  /** What SkipValue passes over, and where it leaves the run. */
  lemma Skipped(r0: Run, data: Bytes, from: nat, p: nat, ok: bool, q: Parser, base: nat, start: nat, m: nat,
          events: seq<Event>)
    requires m <= start <= from <= p < |data| && q.state.HeaderValue? && Framed(q) && q.headerState.General?
    requires Ahead(At(r0, data, from), q, base, from - start, Piece(HeaderValueText, data[m..from]), events, from)
    requires ok ==> p <= from + MAX_HEADER_SIZE && forall j :: from <= j <= p && j < from + MAX_HEADER_SIZE ==>
               PlainChar(q, data[j])
    requires !ok ==>
               data[p] != CR && data[p] != LF && !q.lenient && !IsHeaderChar(data[p]) &&
               forall j :: from <= j < p ==> PlainChar(q, data[j])
    ensures if ok then Ahead(At(r0, data, p + 1), q, base, p + 1 - start, Piece(HeaderValueText, data[m..p + 1]),
                             events, p + 1)
            else FailsInValue(At(r0, data, |data|), p, InvalidHeaderToken, events)
  {
    hide At, Ahead, Framed, PlainChar, IsHeaderChar;
    if ok && p < from + MAX_HEADER_SIZE {
      ValuesTaken(r0, data, from, p + 1, q, base, start, m, events);
    } else {
      ValuesTaken(r0, data, from, p, q, base, start, m, events);
      if ok {
        Overtaken(r0, data, p, q, base, start, m, events);
      } else {
        ValueFails(r0, data, p, q, base, start, m, events, InvalidHeaderToken);
      }
    }
  }

  /** The byte passed unseen is one that already overflows. */
  lemma Overtaken(r0: Run, data: Bytes, p: nat, q: Parser, base: nat, start: nat, m: nat, events: seq<Event>)
    requires m <= start <= p < |data| && p - start >= MAX_HEADER_SIZE && q.state.HeaderValue?
    requires Ahead(At(r0, data, p), q, base, p - start, Piece(HeaderValueText, data[m..p]), events, p)
    ensures Ahead(At(r0, data, p + 1), q, base, p + 1 - start, Piece(HeaderValueText, data[m..p + 1]), events, p + 1)
  {
    hide Byte;
    AtNext(r0, data, p);
    Overflows(At(r0, data, p), q, base, p - start, Piece(HeaderValueText, data[m..p]), events, p, data[p], q);
    assert data[m..p] + [data[p]] == data[m..p + 1];
  }

  /** Every step works on the data under way, or there is none. */
  ghost predicate Fits(open: Option<Piece>, ops: seq<Op>, ch: byte)
    decreases |ops|
  {
    ops == [] || (Of(open, ops[0].kind) && Fits(Perform(open, ops[0], ch).0, ops[1..], ch))
  }

  lemma ShapeFits(z: Slot, open: Option<Piece>, ops: seq<Op>, notes: seq<Event>, z': Slot, ch: byte)
    requires Compatible(z, open) && Shape(z, ops, notes, z')
    ensures Fits(open, ops, ch)
  {
    if |ops| > 1 {
      assert ops[1..] == [Open(HeaderFieldText)];
    }
  }

  lemma FailFits(z: Slot, open: Option<Piece>, ops: seq<Op>, notes: seq<Event>, ch: byte)
    requires Compatible(z, open) && FailShape(z, ops, notes)
    ensures Fits(open, ops, ch)
  {
  }

  lemma MarkedGrow(marks: Marks, data: Bytes, p: nat, open: Option<Piece>)
    requires p < |data| && Marked(marks, data, p, open)
    ensures Marked(marks, data, p + 1, Grow(open, data[p]))
  {
    if open.Some? {
      var m := marks[open.value.kind];
      assert data[m..p] + [data[p]] == data[m..p + 1];
    }
  }

  predicate BodyState(s: State) {
    s.BodyIdentity? || s.BodyIdentityEof? || s == InChunk(ChunkData)
  }

  /** The parser after `k` bytes of body. */
  ghost function BodyAfter(q: Parser, k: nat): Parser
    requires !q.state.BodyIdentityEof? ==> k <= q.contentLength
  {
    if q.state.BodyIdentityEof? then q
    else
      var left := q.contentLength - k;
      q.(contentLength := left, state := if left == 0 && q.state.InChunk? then InChunk(ChunkDataAlmostDone)
         else q.state)
  }

  lemma BodyStep(q: Parser, d: Option<Piece>, events: seq<Event>, n: nat, ch: byte)
    requires BodyState(q.state) && Framed(q) && Of(d, BodyText) && (q.state.BodyIdentity? ==> q.contentLength > 1)
    ensures var text := if d.Some? then d.value.bytes else [];
            Next(Running(q, d, events, n), ch) ==
              Running(BodyAfter(q, 1), Some(Piece(BodyText, text + [ch])), events, n + 1)
    ensures Framed(BodyAfter(q, 1))
  {
    hide Byte;
    assert Byte(q, ch) == Mark(BodyAfter(q, 1), BodyAfter(q, 1).state, Open(BodyText)) by { BodyByte(q, ch); }
    OnePerformed(d, [Open(BodyText)], ch);
    assert events + [] + [] == events;
  }

  lemma BodyByte(q: Parser, ch: byte)
    requires BodyState(q.state) && Framed(q) && (q.state.BodyIdentity? ==> q.contentLength > 1)
    ensures Byte(q, ch) == Mark(BodyAfter(q, 1), BodyAfter(q, 1).state, Open(BodyText))
  {
  }

  lemma BodyLength(q: Parser)
    requires BodyState(q.state) && Framed(q)
    ensures q.state.BodyIdentityEof? || (q.contentLength != 0 && q.contentLength != ABSENT)
  {
  }

  /** A batch of body starts at `start`; its data is marked, or will be, at `m`. */
  ghost predicate BodyEntered(r: Run, start: nat, data: Bytes, q: Parser, marks: Marks, m: nat, events: seq<Event>) {
    r.Running? && r == Running(q, r.open, events, start) && Of(r.open, BodyText) &&
      Marked(marks, data, start, r.open) &&
    m == if BodyText in marks then marks[BodyText] else start
  }

  lemma {:induction false} BodyTaken(r0: Run, data: Bytes, start: nat, end: nat, q: Parser, marks: Marks, m: nat,
          events: seq<Event>)
    requires start <= end <= |data| && BodyState(q.state) && Framed(q) && m <= start
    requires !q.state.BodyIdentityEof? ==> end - start <= q.contentLength
    requires q.state.BodyIdentity? ==> end - start < q.contentLength
    requires BodyEntered(At(r0, data, start), start, data, q, marks, m, events)
    ensures At(r0, data, end) ==
            Running(BodyAfter(q, end - start), if end == start then At(r0, data, start).open
                    else Some(Piece(BodyText, data[m..end])), events, end)
    ensures Framed(BodyAfter(q, end - start))
    decreases end
  {
    hide Next, Framed, At, BodyAfter, BodyState;
    if start < end {
      var k := end - 1 - start;
      BodyMore(q, k);
      BodyTaken(r0, data, start, end - 1, q, marks, m, events);
      AtNext(r0, data, end - 1);
      var open := At(r0, data, end - 1).open;
      BodyHas(data, m, start, end - 1, At(r0, data, start).open, open, marks);
      BodyStep(BodyAfter(q, k), open, events, end - 1, data[end - 1]);
    } else {
      BodyNone(q);
    }
  }

  /** The data under way reaches from the mark to the byte to come. */
  lemma BodyHas(data: Bytes, m: nat, start: nat, p: nat, first: Option<Piece>, open: Option<Piece>, marks: Marks)
    requires m <= start <= p < |data| && Of(first, BodyText) && Marked(marks, data, start, first)
    requires m == if BodyText in marks then marks[BodyText] else start
    requires open == if p == start then first else Some(Piece(BodyText, data[m..p]))
    ensures Of(open, BodyText) && (if open.Some? then open.value.bytes else []) + [data[p]] == data[m..p + 1]
  {
    assert data[m..p] + [data[p]] == data[m..p + 1];
    assert data[p..p] == [];
  }

  lemma BodyNone(q: Parser)
    requires BodyState(q.state) && Framed(q)
    ensures BodyAfter(q, 0) == q
  {
  }

  /** The last byte of a body of known length. */
  lemma LastByte(q: Parser, d: Option<Piece>, events: seq<Event>, n: nat, ch: byte)
    requires q.state.BodyIdentity? && Framed(q) && Of(d, BodyText) && q.contentLength == 1
    ensures var text := if d.Some? then d.value.bytes else [];
            Next(Running(q, d, events, n), ch) ==
            Completed(q.(contentLength := 0), events + [Data(BodyText, text + [ch])] + [MessageComplete], n + 1)
  {
    hide Byte, NewMessage;
    assert Byte(q, ch) == Complete(q.(contentLength := 0), [Finish(BodyText)], []) by { LastTurn(q, ch); }
    OnePerformed(d, [Finish(BodyText)], ch);
    assert [] + [MessageComplete] == [MessageComplete];
  }

  lemma LastTurn(q: Parser, ch: byte)
    requires q.state.BodyIdentity? && q.contentLength == 1
    ensures Byte(q, ch) == Complete(q.(contentLength := 0), [Finish(BodyText)], [])
  {
  }

  /** A message is over, and so is the call if another protocol follows. */
  ghost function Completed(q: Parser, events: seq<Event>, n: nat): Run {
    var q' := q.(state := NewMessage(q));
    if q.upgrade then Stopped(q', events, n) else Running(q', None, events, n)
  }

  lemma BodyCompletes(r0: Run, data: Bytes, start: nat, p: nat, q: Parser, marks: Marks, m: nat, events: seq<Event>)
    requires start <= p < |data| && q.state.BodyIdentity? && Framed(q) && m <= start && p + 1 - start == q.contentLength
    requires BodyEntered(At(r0, data, start), start, data, q, marks, m, events)
    ensures At(r0, data, p + 1) ==
            Completed(q.(contentLength := 0), events + [Data(BodyText, data[m..p + 1])] + [MessageComplete], p + 1)
    ensures var q' := q.(contentLength := 0); Framed(q'.(state := NewMessage(q')))
  {
    hide Next;
    hide NewMessage, At;
    BodyTaken(r0, data, start, p, q, marks, m, events);
    var r := At(r0, data, p);
    AtNext(r0, data, p);
    BodyHas(data, m, start, p, At(r0, data, start).open, r.open, marks);
    LastByte(r.p, r.open, events, p, data[p]);
    NewMessageFramed(q.(contentLength := 0));
  }

  lemma AnyState(q: Parser)
    ensures NewMessage(q.(state := Ending(MessageDone))) == NewMessage(q)
  {
  }

  lemma BodyMore(q: Parser, k: nat)
    requires BodyState(q.state) && Framed(q)
    requires !q.state.BodyIdentityEof? ==> k < q.contentLength
    requires q.state.BodyIdentity? ==> k + 1 < q.contentLength
    ensures BodyState(BodyAfter(q, k).state)
    ensures BodyAfter(q, k).state.BodyIdentity? ==> BodyAfter(q, k).contentLength > 1
    ensures q.state.BodyIdentityEof? || k + 1 <= q.contentLength
    ensures BodyAfter(BodyAfter(q, k), 1) == BodyAfter(q, k + 1)
  {
  }

  /** The states in which the connection may end. */
  predicate Idle(s: State) {
    s.Dead? || s.StartReqOrRes? || s == InResponse(StartRes) || s == InRequest(StartReq)
  }

  lemma AtStart(q: Parser, data: Bytes)
    ensures At(Start(q), data, 0) == Start(q)
    ensures At(Start(q), data, |data|) == RunFrom(Start(q), data)
  {
    hide Next;
    assert data[..0] == [];
    assert data[..|data|] == data;
  }

  lemma AtCompatible(q: Parser, data: Bytes, i: nat)
    requires i <= |data|
    ensures var r := At(Start(q), data, i); r.Running? ==> Compatible(SlotOf(r.p.state), r.open)
  {
    StartSimilar(q);
    RunSimilar(Start(q), Start(q), data[..i]);
    hide Next;
  }

  lemma {:induction false} AtStopped(r0: Run, data: Bytes, i: nat)
    requires i <= |data| && At(r0, data, i).Stopped?
    ensures At(r0, data, |data|) == At(r0, data, i)
    decreases |data| - i
  {
    hide Byte;
    if i < |data| {
      AtNext(r0, data, i);
      AtStopped(r0, data, i + 1);
    }
  }

  lemma StepTurn(q: Parser, ch: byte)
    ensures ParsingHeader(q.state) ==>
              Byte(q, ch) == if q.nread + 1 > MAX_HEADER_SIZE then Fail(HeaderOverflow)
                else Switch(q.(nread := q.nread + 1), ch)
    ensures !ParsingHeader(q.state) ==> Byte(q, ch) == Switch(q, ch)
  {
    hide Switch;
  }

  lemma RecountFramed(q: Parser, x: nat, s: State)
    requires Framed(q) && (q.state.HeaderField? || q.state.HeaderValue?) && (s == q.state || s.AroundValue?)
    ensures x <= MAX_HEADER_SIZE ==> Framed(q.(state := s, nread := x))
  {
  }

  lemma FramedNread(q: Parser)
    requires Framed(q)
    ensures q.nread <= MAX_HEADER_SIZE
    ensures (q.state.HeaderField? || q.state.HeaderValue?) && q.nread < MAX_HEADER_SIZE ==>
              Framed(q.(nread := q.nread + 1))
  {
  }

  lemma Refuses(r: Run, ch: byte, e: Errno)
    requires r.Running? && Byte(r.p, ch) == Fail(e)
    ensures Next(r, ch) == Failed(e, r.open, r.events, r.read)
  {
    hide Byte;
    assert PerformAll(r.open, [], ch) == (r.open, []);
    assert r.events + [] + [] == r.events;
  }

  lemma MarkedStart(q: Parser, data: Bytes, marks: Marks)
    requires marks == match SlotOf(q.state) case Inside(k) => map[k := 0] case _ => map[]
    ensures Marked(marks, data, 0, Start(q).open)
  {
    assert data[0..0] == [];
  }
}
