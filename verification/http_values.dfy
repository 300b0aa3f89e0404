/** The values of header fields: plain ones and lengths. */
module HttpValues {
  import opened Bytes
  import opened Decimals
  import opened HttpTypes
  import opened HttpTurn
  import opened HttpRun
  import opened HttpCut
  import opened HttpFraming
  import opened HttpExecute
  import opened HttpChunks
  import opened HttpLengths
  import opened HttpTrailers
  import opened HttpNames

  // ----- plain values

  /** The parser after `k` bytes of a plain value. */
  function PlainAt(p: Parser, k: nat): Parser {
    p.(state := HeaderValue, headerState := General, index := 0, nread := p.nread + k,
       flags := p.flags.(upgrade := p.flags.upgrade || p.headerState.Upgrade?))
  }

  predicate PlainName(h: HState) {
    h.General? || h.Upgrade? || Matching(h)
  }

  lemma PlainFirst(p: Parser, ch: byte)
    requires p.state == AroundValue(HeaderValueDiscardWs) && PlainName(p.headerState) && p.nread < MAX_HEADER_SIZE
    requires !IsBlank(ch) && ch != CR && ch != LF
    ensures Byte(p, ch) == Go(PlainAt(p, 1), [Open(HeaderValueText)], [])
  {
  }

  lemma PlainNext(p: Parser, k: nat, ch: byte)
    requires k > 0 && p.nread + k < MAX_HEADER_SIZE && ch != CR && ch != LF && (p.lenient || IsHeaderChar(ch))
    ensures Byte(PlainAt(p, k), ch) == Go(PlainAt(p, k + 1), [], [])
  {
    ByteInValue(PlainAt(p, k), ch);
  }

  lemma {:induction false} PlainRuns(p: Parser, value: Bytes, k: nat, ev: seq<Event>, n: nat)
    requires p.state == AroundValue(HeaderValueDiscardWs) && PlainName(p.headerState)
    requires IsValue(value, p.lenient) && 1 <= k <= |value| && p.nread + k <= MAX_HEADER_SIZE
    ensures RunFrom(Running(p, None, ev, n), value[..k]) ==
            Running(PlainAt(p, k), Some(Piece(HeaderValueText, value[..k])), ev, n + k)
    decreases k
  {
    hide RunFrom, Next, IsHeaderChar, PlainAt, Byte, PlainName;
    var r0 := Running(p, None, ev, n);
    RunLast(r0, value[..k]);
    assert value[..k][..k - 1] == value[..k - 1];
    if k == 1 {
      assert value[..0] == [] && value[..1] == [value[0]];
      NothingRun(r0);
      PlainFirst(p, value[0]);
      FirstStep(p, value[0], PlainAt(p, 1), HeaderValueText, ev, n);
    } else {
      PlainRuns(p, value, k - 1, ev, n);
      PlainNext(p, k - 1, value[k - 1]);
      NextInside(PlainAt(p, k - 1), Piece(HeaderValueText, value[..k - 1]), ev, n + k - 1, value[k - 1], PlainAt(p, k));
      assert value[..k - 1] + [value[k - 1]] == value[..k];
    }
  }

  lemma FirstStep(p: Parser, ch: byte, p': Parser, kind: Kind, ev: seq<Event>, n: nat)
    requires Byte(p, ch) == Go(p', [Open(kind)], [])
    ensures Next(Running(p, None, ev, n), ch) == Running(p', Some(Piece(kind, [ch])), ev, n + 1)
  {
    hide Byte;
    OnePerformed(None, [Open(kind)], ch);
    assert ev + [] + [] == ev && [] + [ch] == [ch];
  }

  /** The value and its line end have been read. */
  ghost predicate Valued(r: Run, p: Parser, c: Parser, ev: seq<Event>, n: nat, nread: nat) {
    && r.Running? && r == Running(r.p, None, r.events, n)
    && Ready(r.p) && r.p.nread == nread && Core(Settle(r.p)) == c && r.events + Due(r.p) == ev
  }

  /** Where a line of a value has ended. */
  function EndOfLine(p: Parser, k: nat): Parser {
    p.(state := AroundValue(HeaderValueLws), nread := p.nread + k)
  }

  lemma ThenEnd(r0: Run, q: Parser, value: Bytes, end: Bytes, ev: seq<Event>, n: nat)
    requires RunFrom(r0, value) == Running(q, Some(Piece(HeaderValueText, value)), ev, n)
    requires q.state == HeaderValue && q.nread + |end| <= MAX_HEADER_SIZE && LineEnd(end)
    ensures RunFrom(r0, value + end) ==
            Running(EndOfLine(q, |end|), None, ev + [Data(HeaderValueText, value)], n + |end|)
  {
    hide RunFrom, LineEnd;
    RunSplit(r0, value, end);
    EndRun(q, value, end, ev, n);
  }

  lemma PlainValueRuns(p: Parser, value: Bytes, end: Bytes, ev: seq<Event>, n: nat)
    requires p.state == AroundValue(HeaderValueDiscardWs) && PlainName(p.headerState)
    requires IsValue(value, p.lenient) && LineEnd(end) && p.nread + |value| + |end| <= MAX_HEADER_SIZE
    ensures RunFrom(Running(p, None, ev, n), value + end) ==
            Running(EndOfLine(PlainAt(p, |value|), |end|), None, ev + [Data(HeaderValueText, value)],
                    n + |value| + |end|)
  {
    hide RunFrom, IsHeaderChar, LineEnd, PlainName, EndOfLine;
    PlainRuns(p, value, |value|, ev, n);
    assert value[..|value|] == value;
    ThenEnd(Running(p, None, ev, n), PlainAt(p, |value|), value, end, ev, n + |value|);
  }

  lemma PlainSettled(p: Parser, k: nat, j: nat)
    ensures var q := EndOfLine(PlainAt(p, k), j);
      Ready(q) && Due(q) == [] && q.nread == p.nread + k + j &&
      Core(Settle(q)) == Core(p).(flags := p.flags.(upgrade := p.flags.upgrade || p.headerState.Upgrade?))
  {
  }

  /** Where the value is still to come. */
  predicate NoWord(h: HState) {
    PlainName(h) || h.Connection? || h.TransferEncoding?
  }

  lemma NoValueSettled(p: Parser, q: Parser)
    requires NoWord(p.headerState) && q == p.(state := AroundValue(HeaderValueDiscardLws), nread := q.nread)
    ensures Ready(q) && Due(q) == [Data(HeaderValueText, [])] && Core(Settle(q)) == Core(p)
  {
  }

  /** A field without a value. */
  lemma NoValue(p: Parser, end: Bytes, ev: seq<Event>, n: nat)
    requires p.state == AroundValue(HeaderValueDiscardWs) && NoWord(p.headerState) && LineEnd(end)
    requires p.nread + |end| <= MAX_HEADER_SIZE
    ensures Valued(RunFrom(Running(p, None, ev, n), end), p, Core(p), ev + [Data(HeaderValueText, [])], n + |end|,
                   p.nread + |end|)
  {
    hide RunFrom, Ready, Settle, Due, NoWord, LineEnd;
    FoldStarts(p, end, ev, n);
    NoValueSettled(p, p.(state := AroundValue(HeaderValueDiscardLws), nread := p.nread + |end|));
  }

  /** A plain value. */
  lemma SomeValue(p: Parser, value: Bytes, end: Bytes, ev: seq<Event>, n: nat)
    requires p.state == AroundValue(HeaderValueDiscardWs) && PlainName(p.headerState) && IsValue(value, p.lenient)
    requires LineEnd(end) && p.nread + |value| + |end| <= MAX_HEADER_SIZE
    ensures var k := |value| + |end|;
      Valued(RunFrom(Running(p, None, ev, n), value + end), p,
             Core(p).(flags := p.flags.(upgrade := p.flags.upgrade || p.headerState.Upgrade?)),
             ev + [Data(HeaderValueText, value)], n + k, p.nread + k)
  {
    hide RunFrom, IsHeaderChar, PlainAt, EndOfLine, Ready, Settle, Due, PlainName, LineEnd;
    PlainValueRuns(p, value, end, ev, n);
    PlainSettled(p, |value|, |end|);
    assert ev + [Data(HeaderValueText, value)] + [] == ev + [Data(HeaderValueText, value)];
  }

  lemma IsValued(p: Parser, q: Parser, ev: seq<Event>, n: nat)
    requires Ready(q) && Due(q) == []
    ensures Valued(Running(q, None, ev, n), p, Core(Settle(q)), ev, n, q.nread)
  {
    assert ev + [] == ev;
  }

  // ----- lengths

  /** The number of digits the value starts with. */
  function Figures(value: Bytes): (n: nat)
    ensures n <= |value| && AllDigits(value[..n]) && (n < |value| ==> !IsDigit(value[n]))
  {
    if value == [] || !IsDigit(value[0]) then 0
    else
      var n := 1 + Figures(value[1..]);
      assert value[..n] == [value[0]] + value[1..][..n - 1];
      n
  }

  /** The number that a Content-Length field gives. */
  function LengthOf(f: Field): nat {
    Numeral(0, f.value[..Figures(f.value)])
  }

  /** Digits, and spaces after them. */
  ghost predicate IsLength(f: Field) {
    Spells(f.name, NAME) && Figures(f.value) > 0 && Spaces(f.value[Figures(f.value)..])
  }

  lemma LengthEnds(p: Parser, f: Field, ev: seq<Event>, n: nat) returns (q: Parser)
    requires p.state == AroundValue(HeaderValueDiscardWs) && p.headerState == ContentLength && !p.flags.contentLength
    requires IsLength(f) && LengthOf(f) <= MAX_LENGTH && LineEnd(f.end)
    requires p.nread + |f.value| + |f.end| <= MAX_HEADER_SIZE
    ensures AfterNumber(q, AroundValue(HeaderValueLws)) && q.nread == p.nread + |f.value| + |f.end|
    ensures Core(q) == Core(p).(flags := p.flags.(contentLength := true), contentLength := LengthOf(f))
    ensures RunFrom(Running(p, None, ev, n), f.value + f.end) ==
            Running(q, None, ev + [Data(HeaderValueText, f.value)], n + |f.value| + |f.end|)
  {
    hide RunFrom, Spaces, LineEnd, Numeral, AllDigits, MAX_LENGTH;
    var r0, k := Running(p, None, ev, n), Figures(f.value);
    var ds, spaces := f.value[..k], f.value[k..];
    assert f.value == ds + spaces;
    RunSplit(r0, ds, spaces);
    FiguresRun(p, ds, ev, n);
    SpacesRun(Reading(p, ds), ds, spaces, ev, n + k);
    var h := if spaces == [] then ContentLengthNum else ContentLengthWs;
    ThenEnd(r0, Reading(p, ds).(headerState := h, nread := p.nread + |f.value|), f.value, f.end, ev, n + |f.value|);
    q := EndOfLine(Reading(p, ds).(headerState := h, nread := p.nread + |f.value|), |f.end|);
  }

  lemma LengthSettled(q: Parser)
    requires AfterNumber(q, AroundValue(HeaderValueLws))
    ensures Ready(q) && Due(q) == [] && Core(Settle(q)) == Core(q)
  {
  }

  lemma LengthRuns(p: Parser, f: Field, ev: seq<Event>, n: nat)
    requires p.state == AroundValue(HeaderValueDiscardWs) && p.headerState == ContentLength && !p.flags.contentLength
    requires IsLength(f) && LengthOf(f) <= MAX_LENGTH && LineEnd(f.end)
    requires p.nread + |f.value| + |f.end| <= MAX_HEADER_SIZE
    ensures var c, k := Core(p), |f.value| + |f.end|;
      Valued(RunFrom(Running(p, None, ev, n), f.value + f.end), p,
             c.(flags := c.flags.(contentLength := true), contentLength := LengthOf(f)),
             ev + [Data(HeaderValueText, f.value)], n + k, p.nread + k)
  {
    hide RunFrom, LengthOf, IsLength, LineEnd, Ready, Settle, Due, AfterNumber;
    var q := LengthEnds(p, f, ev, n);
    LengthSettled(q);
    IsValued(p, q, ev + [Data(HeaderValueText, f.value)], n + |f.value| + |f.end|);
  }
}
