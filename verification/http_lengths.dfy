/** The Content-Length header, and the body it frames. */
module HttpLengths {
  import opened Bytes
  import opened Decimals
  import opened HttpTypes
  import opened HttpTurn
  import opened HttpRun
  import opened HttpCut
  import opened HttpFraming
  import opened HttpExecute
  import opened HttpChunks

  const NAME: string := "content-length"

  /** The name of the header, in any mixture of cases. */
  predicate SaysLength(name: Bytes) {
    |name| == |NAME| && forall k :: 0 <= k < |NAME| ==> TokenOf(name[k]) == NAME[k] as int
  }

  predicate IsBlank(c: byte) {
    c == SPACE || c == TAB
  }

  /** What may stand before the number: blanks, and line ends that a blank follows. */
  predicate Leading(s: Bytes) {
    s == [] || (IsBlank(s[0]) && Leading(s[1..])) ||
    (s[0] == LF && |s| > 1 && IsBlank(s[1]) && Leading(s[2..])) ||
    (s[0] == CR && |s| > 2 && s[1] == LF && IsBlank(s[2]) && Leading(s[3..]))
  }

  predicate Spaces(s: Bytes) {
    forall k :: 0 <= k < |s| ==> s[k] == SPACE
  }

  predicate LineEnd(s: Bytes) {
    s == CRLF || s == [LF]
  }

  /** A folded line after the number: a blank, then spaces. */
  datatype Fold = Fold(blank: byte, spaces: Bytes, end: Bytes)

  predicate Folded(f: Fold) {
    IsBlank(f.blank) && Spaces(f.spaces) && LineEnd(f.end)
  }

  function FoldText(f: Fold): Bytes {
    [f.blank] + f.spaces + f.end
  }

  function FoldsText(folds: seq<Fold>): Bytes {
    if folds == [] then [] else FoldText(folds[0]) + FoldsText(folds[1..])
  }

  /** Each line of the value is told on its own. */
  function FoldsEvents(folds: seq<Fold>): seq<Event> {
    if folds == [] then [] else [Data(HeaderValueText, [folds[0].blank] + folds[0].spaces)] + FoldsEvents(folds[1..])
  }

  /** The largest length the parser takes: 2^64 - 7. */
  const MAX_LENGTH: nat := DECIMAL_LIMIT * 10 + 9

  // ----- the name

  /** The header state after `k` letters of the name. */
  function Matched(k: nat): HState {
    if k == 1 then C else if k == 2 then CO else if k == 3 then CON
    else if k < |NAME| then MatchingContentLength else ContentLength
  }

  lemma FirstLetter(q: Parser, ch: byte)
    requires q.state == Ending(HeaderFieldStart) && q.nread < MAX_HEADER_SIZE && TokenOf(ch) == 99
    ensures Byte(q, ch) ==
            Go(q.(state := HeaderField, nread := q.nread + 1, index := 0, headerState := C), [Open(HeaderFieldText)],
               [])
  {
    hide AlmostDone;
  }

  lemma NextLetter(q: Parser, k: nat, c: byte)
    requires 1 <= k < |NAME| && q.headerState == Matched(k) && q.index == k - 1 && c == NAME[k] as int
    ensures FieldChar(q, c) == Some(q.(index := k, headerState := Matched(k + 1)))
  {
  }

  /** The parser after the first `k` letters of the name. */
  function Naming(q: Parser, k: nat): Parser
    requires k > 0
  {
    q.(state := HeaderField, nread := q.nread + k, index := k - 1, headerState := Matched(k))
  }

  lemma FirstStep(q: Parser, ch: byte, ev: seq<Event>, n: nat)
    requires q.state == Ending(HeaderFieldStart) && q.nread < MAX_HEADER_SIZE && TokenOf(ch) == 99
    ensures Next(Running(q, None, ev, n), ch) == Running(Naming(q, 1), Some(Piece(HeaderFieldText, [ch])), ev, n + 1)
  {
    FirstLetter(q, ch);
    hide Byte, TokenOf;
    OnePerformed(None, [Open(HeaderFieldText)], ch);
    assert ev + [] + [] == ev && [] + [ch] == [ch];
  }

  lemma NextStep(q: Parser, k: nat, text: Bytes, ch: byte, ev: seq<Event>, n: nat)
    requires 1 <= k < |NAME| && q.nread + k < MAX_HEADER_SIZE && TokenOf(ch) == NAME[k] as int
    ensures Next(Running(Naming(q, k), Some(Piece(HeaderFieldText, text)), ev, n), ch) ==
            Running(Naming(q, k + 1), Some(Piece(HeaderFieldText, text + [ch])), ev, n + 1)
  {
    hide Byte, Naming;
    NextLetterTurn(q, k, ch);
    NextInside(Naming(q, k), Piece(HeaderFieldText, text), ev, n, ch, Naming(q, k + 1));
  }

  lemma NextLetterTurn(q: Parser, k: nat, ch: byte)
    requires 1 <= k < |NAME| && q.nread + k < MAX_HEADER_SIZE && TokenOf(ch) == NAME[k] as int
    ensures Byte(Naming(q, k), ch) == Go(Naming(q, k + 1), [], [])
  {
    hide Byte, TokenOf, FieldChar;
    var p := Naming(q, k);
    ByteInField(p, ch);
    NextLetter(p.(nread := q.nread + k + 1), k, TokenOf(ch));
  }

  lemma {:induction false} NameRun(q: Parser, name: Bytes, k: nat, ev: seq<Event>, n: nat)
    requires SaysLength(name) && 1 <= k <= |NAME|
    requires q.state == Ending(HeaderFieldStart) && q.nread + k <= MAX_HEADER_SIZE
    ensures RunFrom(Running(q, None, ev, n), name[..k]) ==
            Running(Naming(q, k), Some(Piece(HeaderFieldText, name[..k])), ev, n + k)
    decreases k
  {
    hide Next, TokenOf, Naming;
    assert name[..k][..k - 1] == name[..k - 1];
    if k == 1 {
      assert name[..0] == [] && name[..1] == [name[0]];
      FirstStep(q, name[0], ev, n);
    } else {
      NameRun(q, name, k - 1, ev, n);
      NextStep(q, k - 1, name[..k - 1], name[k - 1], ev, n + k - 1);
      assert name[..k - 1] + [name[k - 1]] == name[..k];
    }
  }

  // ----- the value

  lemma ColonTurn(q: Parser, text: Bytes, ev: seq<Event>, n: nat)
    requires q.state == HeaderField && q.nread < MAX_HEADER_SIZE
    ensures Next(Running(q, Some(Piece(HeaderFieldText, text)), ev, n), COLON) ==
            Running(q.(state := AroundValue(HeaderValueDiscardWs), nread := q.nread + 1), None,
                    ev + [Data(HeaderFieldText, text)], n + 1)
  {
    hide Byte;
    ByteInField(q, COLON);
    OnePerformed(Some(Piece(HeaderFieldText, text)), [Close(HeaderFieldText)], COLON);
    assert ev + [Data(HeaderFieldText, text)] + [] == ev + [Data(HeaderFieldText, text)];
  }

  lemma {:induction false} LeadRun(q: Parser, lead: Bytes, ev: seq<Event>, n: nat)
    requires Leading(lead) && q.state == AroundValue(HeaderValueDiscardWs) && q.nread + |lead| <= MAX_HEADER_SIZE
    ensures RunFrom(Running(q, None, ev, n), lead) == Running(q.(nread := q.nread + |lead|), None, ev, n + |lead|)
    decreases |lead|
  {
    hide RunFrom, IsBlank;
    if lead == [] {
      NothingRun(Running(q, None, ev, n));
    } else {
      var k := if IsBlank(lead[0]) then 1 else if lead[0] == LF then 2 else 3;
      assert lead == lead[..k] + lead[k..];
      RunSplit(Running(q, None, ev, n), lead[..k], lead[k..]);
      if k == 1 {
        assert lead[..1] == [lead[0]];
        LeadBlank(q, lead[0], ev, n);
      } else {
        assert lead[..k] == lead[..k - 1] + [lead[k - 1]];
        LeadFold(q, lead[..k - 1], lead[k - 1], ev, n);
      }
      LeadRun(q.(nread := q.nread + k), lead[k..], ev, n + k);
    }
  }

  lemma NothingRun(r: Run)
    ensures RunFrom(r, []) == r
  {
  }

  lemma LeadBlank(q: Parser, ch: byte, ev: seq<Event>, n: nat)
    requires q.state == AroundValue(HeaderValueDiscardWs) && q.nread < MAX_HEADER_SIZE && IsBlank(ch)
    ensures RunFrom(Running(q, None, ev, n), [ch]) == Running(q.(nread := q.nread + 1), None, ev, n + 1)
  {
    hide RunFrom, IsBlank, Next;
    OneByte(Running(q, None, ev, n), ch);
    BlankStep(q, ch, ev, n);
  }

  /** A line end, and a blank after it. */
  lemma LeadFold(q: Parser, end: Bytes, ch: byte, ev: seq<Event>, n: nat)
    requires q.state == AroundValue(HeaderValueDiscardWs) && q.nread + |end| + 1 <= MAX_HEADER_SIZE &&
             LineEnd(end) && IsBlank(ch)
    ensures RunFrom(Running(q, None, ev, n), end + [ch]) ==
            Running(q.(nread := q.nread + |end| + 1), None, ev, n + |end| + 1)
  {
    hide RunFrom, IsBlank, Next, LineEnd;
    var r := Running(q, None, ev, n);
    RunSplit(r, end, [ch]);
    FoldStarts(q, end, ev, n);
    OneByte(RunFrom(r, end), ch);
    BlankStep(q.(state := AroundValue(HeaderValueDiscardLws), nread := q.nread + |end|), ch, ev, n + |end|);
  }

  lemma FoldStarts(q: Parser, end: Bytes, ev: seq<Event>, n: nat)
    requires q.state == AroundValue(HeaderValueDiscardWs) && q.nread + |end| <= MAX_HEADER_SIZE && LineEnd(end)
    ensures RunFrom(Running(q, None, ev, n), end) ==
            Running(q.(state := AroundValue(HeaderValueDiscardLws), nread := q.nread + |end|), None, ev, n + |end|)
  {
    hide Byte, Next, RunFrom;
    EndTurnsBefore(q);
    assert ev + [] == ev;
    var r := Running(q, None, ev, n);
    var q' := q.(state := AroundValue(HeaderValueDiscardWsAlmostDone), nread := q.nread + 1);
    if end == [LF] {
      OneByte(r, LF);
      Quietly(q, ev, n, LF, q.(state := AroundValue(HeaderValueDiscardLws), nread := q.nread + 1), []);
    } else {
      TwoBytes(r, CR, LF);
      Quietly(q, ev, n, CR, q', []);
      Quietly(q', ev, n + 1, LF, q.(state := AroundValue(HeaderValueDiscardLws), nread := q.nread + 2), []);
    }
  }

  lemma EndTurnsBefore(q: Parser)
    requires q.state == AroundValue(HeaderValueDiscardWs) && q.nread < MAX_HEADER_SIZE
    ensures Byte(q, LF) == Go(q.(state := AroundValue(HeaderValueDiscardLws), nread := q.nread + 1), [], [])
    ensures var q' := q.(state := AroundValue(HeaderValueDiscardWsAlmostDone), nread := q.nread + 1);
            Byte(q, CR) == Go(q', [], []) &&
            (q'.nread < MAX_HEADER_SIZE ==>
               Byte(q', LF) == Go(q.(state := AroundValue(HeaderValueDiscardLws), nread := q.nread + 2), [], []))
  {
  }

  lemma BlankStep(q: Parser, ch: byte, ev: seq<Event>, n: nat)
    requires q.state == AroundValue(HeaderValueDiscardWs) || q.state == AroundValue(HeaderValueDiscardLws)
    requires q.nread < MAX_HEADER_SIZE && IsBlank(ch)
    ensures Next(Running(q, None, ev, n), ch) ==
            Running(q.(state := AroundValue(HeaderValueDiscardWs), nread := q.nread + 1), None, ev, n + 1)
  {
    BlankTurn(q, ch);
    hide Byte;
    Quietly(q, ev, n, ch, q.(state := AroundValue(HeaderValueDiscardWs), nread := q.nread + 1), []);
    assert ev + [] == ev;
  }

  lemma BlankTurn(q: Parser, ch: byte)
    requires q.state == AroundValue(HeaderValueDiscardWs) || q.state == AroundValue(HeaderValueDiscardLws)
    requires q.nread < MAX_HEADER_SIZE && IsBlank(ch)
    ensures Byte(q, ch) == Go(q.(state := AroundValue(HeaderValueDiscardWs), nread := q.nread + 1), [], [])
  {
  }

  /** The parser after the digits `ds` of a length. */
  function Reading(q: Parser, ds: Bytes): Parser
    requires AllDigits(ds)
  {
    q.(state := HeaderValue, index := 0, headerState := ContentLengthNum, flags := q.flags.(contentLength := true),
       contentLength := Numeral(0, ds), nread := q.nread + |ds|)
  }

  lemma FirstFigure(q: Parser, ch: byte)
    requires q.state == AroundValue(HeaderValueDiscardWs) && q.headerState == ContentLength
    requires q.nread < MAX_HEADER_SIZE && IsDigit(ch)
    ensures Byte(q, ch) == if q.flags.contentLength then Fail(UnexpectedContentLength)
                           else Go(Reading(q, [ch]), [Open(HeaderValueText)], [])
  {
    assert Numeral(0, [ch]) == ch - 48 by { assert [ch][1..] == []; }
  }

  lemma NextFigure(q: Parser, ch: byte)
    requires q.state == HeaderValue && q.headerState == ContentLengthNum && q.nread < MAX_HEADER_SIZE && IsDigit(ch)
    ensures Byte(q, ch) == if DECIMAL_LIMIT < q.contentLength then Fail(InvalidContentLength)
                           else Go(q.(contentLength := q.contentLength * 10 + (ch - 48), nread := q.nread + 1), [], [])
  {
    ByteInValue(q, ch);
  }

  lemma FirstFigureStep(q: Parser, ch: byte, ev: seq<Event>, n: nat)
    requires q.state == AroundValue(HeaderValueDiscardWs) && q.headerState == ContentLength && !q.flags.contentLength
    requires q.nread < MAX_HEADER_SIZE && IsDigit(ch)
    ensures Next(Running(q, None, ev, n), ch) ==
            Running(Reading(q, [ch]), Some(Piece(HeaderValueText, [ch])), ev, n + 1)
  {
    FirstFigure(q, ch);
    hide Byte, Reading;
    OnePerformed(None, [Open(HeaderValueText)], ch);
    assert ev + [] + [] == ev && [] + [ch] == [ch];
  }

  lemma NextFigureStep(q: Parser, ds: Bytes, d: byte, ev: seq<Event>, n: nat)
    requires AllDigits(ds) && IsDigit(d) && AllDigits(ds + [d]) && q.nread + |ds| < MAX_HEADER_SIZE
    ensures Next(Running(Reading(q, ds), Some(Piece(HeaderValueText, ds)), ev, n), d) ==
            if Numeral(0, ds) <= DECIMAL_LIMIT then
              Running(Reading(q, ds + [d]), Some(Piece(HeaderValueText, ds + [d])), ev, n + 1)
            else Failed(InvalidContentLength, Some(Piece(HeaderValueText, ds)), ev, n)
  {
    hide Byte, Numeral, DECIMAL_LIMIT, AllDigits;
    NumeralAppend(0, ds, d);
    NextFigure(Reading(q, ds), d);
    if Numeral(0, ds) <= DECIMAL_LIMIT {
      NextInside(Reading(q, ds), Piece(HeaderValueText, ds), ev, n, d, Reading(q, ds + [d]));
    }
  }

  lemma {:induction false} FiguresRun(q: Parser, ds: Bytes, ev: seq<Event>, n: nat)
    requires AllDigits(ds) && ds != []
    requires q.state == AroundValue(HeaderValueDiscardWs) && q.headerState == ContentLength && !q.flags.contentLength
    requires q.nread + |ds| <= MAX_HEADER_SIZE
    ensures var r := RunFrom(Running(q, None, ev, n), ds);
            if Numeral(0, ds) <= MAX_LENGTH then r ==
              Running(Reading(q, ds), Some(Piece(HeaderValueText, ds)), ev, n + |ds|)
            else r.Failed? && r.errno == InvalidContentLength && r.events == ev
    decreases |ds|
  {
    hide Byte, Reading, Numeral, DECIMAL_LIMIT, PerformAll, Next, RunFrom;
    var r, k := Running(q, None, ev, n), |ds| - 1;
    RunLast(r, ds);
    if k == 0 {
      assert ds[..0] == [] && ds == [ds[0]];
      NothingRun(r);
      FirstFigureStep(q, ds[0], ev, n);
      OneFigure(ds[0]);
    } else {
      assert ds == ds[..k] + [ds[k]];
      FiguresRun(q, ds[..k], ev, n);
      NumeralAppend(0, ds[..k], ds[k]);
      NextFigureStep(q, ds[..k], ds[k], ev, n + k);
    }
  }

  lemma RunLast(r: Run, data: Bytes)
    requires data != []
    ensures var k := |data| - 1;
            var before := RunFrom(r, data[..k]);
            RunFrom(r, data) == Next(before, data[k]) && (!before.Running? ==> RunFrom(r, data) == before)
  {
    hide Byte;
  }

  lemma OneFigure(d: byte)
    requires IsDigit(d)
    ensures Numeral(0, [d]) == d - 48
  {
    assert [d][1..] == [];
  }

  /** The parser in a value after its number, or where a line of that value has ended. */
  predicate AfterNumber(q: Parser, s: State) {
    q.state == s && (q.headerState.ContentLengthNum? || q.headerState.ContentLengthWs?)
  }

  lemma SpaceTurn(q: Parser)
    requires AfterNumber(q, HeaderValue) && q.nread < MAX_HEADER_SIZE
    ensures Byte(q, SPACE) == Go(q.(headerState := ContentLengthWs, nread := q.nread + 1), [], [])
  {
    ByteInValue(q, SPACE);
  }

  lemma {:induction false} SpacesRun(q: Parser, text: Bytes, spaces: Bytes, ev: seq<Event>, n: nat)
    requires AfterNumber(q, HeaderValue) && q.nread + |spaces| <= MAX_HEADER_SIZE && Spaces(spaces)
    ensures RunFrom(Running(q, Some(Piece(HeaderValueText, text)), ev, n), spaces) ==
            Running(q.(headerState := if spaces == [] then q.headerState
                       else ContentLengthWs, nread := q.nread + |spaces|),
                    Some(Piece(HeaderValueText, text + spaces)), ev, n + |spaces|)
    decreases |spaces|
  {
    hide Byte, Next;
    if spaces == [] {
      assert text + [] == text;
    } else {
      var k := |spaces| - 1;
      SpacesRun(q, text, spaces[..k], ev, n);
      var q' := q.(headerState := if k == 0 then q.headerState else ContentLengthWs, nread := q.nread + k);
      SpaceTurn(q');
      NextInside(q', Piece(HeaderValueText, text + spaces[..k]), ev, n + k, SPACE,
                 q.(headerState := ContentLengthWs, nread := q.nread + k + 1));
      assert text + spaces[..k] + [spaces[k]] == text + spaces;
    }
  }

  lemma EndRun(q: Parser, text: Bytes, end: Bytes, ev: seq<Event>, n: nat)
    requires q.state == HeaderValue && q.nread + |end| <= MAX_HEADER_SIZE && LineEnd(end)
    ensures RunFrom(Running(q, Some(Piece(HeaderValueText, text)), ev, n), end) ==
            Running(q.(state := AroundValue(HeaderValueLws), nread := q.nread + |end|), None,
                    ev + [Data(HeaderValueText, text)], n + |end|)
  {
    hide Byte, Next, RunFrom;
    var r, told := Running(q, Some(Piece(HeaderValueText, text)), ev, n), ev + [Data(HeaderValueText, text)];
    assert told + [] == told;
    if end == [LF] {
      OneByte(r, LF);
      EndStep(q, text, LF, ev, n);
    } else {
      var q' := q.(state := AroundValue(HeaderAlmostDone), nread := q.nread + 1);
      TwoBytes(r, CR, LF);
      EndStep(q, text, CR, ev, n);
      AlmostTurn(q');
      Quietly(q', told, n + 1, LF, q'.(state := AroundValue(HeaderValueLws), nread := q.nread + 2), []);
    }
  }

  lemma EndStep(q: Parser, text: Bytes, ch: byte, ev: seq<Event>, n: nat)
    requires q.state == HeaderValue && q.nread < MAX_HEADER_SIZE && (ch == CR || ch == LF)
    ensures Next(Running(q, Some(Piece(HeaderValueText, text)), ev, n), ch) ==
            Running(q.(state := AroundValue(if ch == CR then HeaderAlmostDone else HeaderValueLws),
                       nread := q.nread + 1), None,
                    ev + [Data(HeaderValueText, text)], n + 1)
  {
    hide Byte;
    ByteInValue(q, ch);
    OnePerformed(Some(Piece(HeaderValueText, text)), [Close(HeaderValueText)], ch);
    assert ev + [Data(HeaderValueText, text)] + [] == ev + [Data(HeaderValueText, text)];
  }

  lemma AlmostTurn(q: Parser)
    requires q.state == AroundValue(HeaderAlmostDone) && q.nread < MAX_HEADER_SIZE
    ensures Byte(q, LF) == Go(q.(state := AroundValue(HeaderValueLws), nread := q.nread + 1), [], [])
  {
  }

  /** A line of the value of `q` has ended: the length and the flags are still those. */
  ghost predicate Settled(r: Run, q: Parser, nread: nat, ev: seq<Event>, n: nat) {
    r.Running? && r == Running(r.p, None, ev, n) && AfterNumber(r.p, AroundValue(HeaderValueLws)) &&
      r.p.nread == nread &&
    r.p.state == AroundValue(HeaderValueLws) &&
    r.p.contentLength == q.contentLength && r.p.flags == q.flags
  }

  /** The rest of a line of the value. */
  lemma RestOfLine(q: Parser, text: Bytes, spaces: Bytes, end: Bytes, ev: seq<Event>, n: nat)
    requires AfterNumber(q, HeaderValue) && q.nread + |spaces| + |end| <= MAX_HEADER_SIZE && Spaces(spaces) &&
             LineEnd(end)
    ensures Settled(RunFrom(Running(q, Some(Piece(HeaderValueText, text)), ev, n), spaces + end), q,
                    q.nread + |spaces| + |end|, ev + [Data(HeaderValueText, text + spaces)], n + |spaces| + |end|)
  {
    hide RunFrom, Spaces, LineEnd;
    RunSplit(Running(q, Some(Piece(HeaderValueText, text)), ev, n), spaces, end);
    SpacesRun(q, text, spaces, ev, n);
    var h := if spaces == [] then q.headerState else ContentLengthWs;
    EndRun(q.(headerState := h, nread := q.nread + |spaces|), text + spaces, end, ev, n + |spaces|);
  }

  lemma FoldTurn(q: Parser, ch: byte)
    requires AfterNumber(q, AroundValue(HeaderValueLws)) && q.nread < MAX_HEADER_SIZE && IsBlank(ch)
    ensures Byte(q, ch) ==
            Go(q.(state := HeaderValue, headerState := ContentLengthWs, index := 0, nread := q.nread + 1),
               [Open(HeaderValueText)], [])
  {
  }

  /** One folded line. */
  lemma FoldRun(r: Run, q0: Parser, f: Fold, nread: nat, ev: seq<Event>, n: nat)
    requires Settled(r, q0, nread, ev, n) && nread + |FoldText(f)| <= MAX_HEADER_SIZE && Folded(f)
    ensures Settled(RunFrom(r, FoldText(f)), q0, nread + |FoldText(f)|,
                    ev + [Data(HeaderValueText, [f.blank] + f.spaces)], n + |FoldText(f)|)
  {
    hide RunFrom, Byte, IsBlank, Spaces, LineEnd;
    var q := r.p;
    assert FoldText(f) == [f.blank] + (f.spaces + f.end);
    RunSplit(r, [f.blank], f.spaces + f.end);
    OneByte(r, f.blank);
    FoldTurn(q, f.blank);
    OnePerformed(None, [Open(HeaderValueText)], f.blank);
    assert ev + [] + [] == ev && [] + [f.blank] == [f.blank];
    RestOfLine(q.(state := HeaderValue, headerState := ContentLengthWs, index := 0, nread := q.nread + 1),
               [f.blank], f.spaces, f.end, ev, n + 1);
  }

  ghost predicate AllFolded(folds: seq<Fold>) {
    forall k :: 0 <= k < |folds| ==> Folded(folds[k])
  }

  lemma {:induction false} FoldsRun(r: Run, q: Parser, folds: seq<Fold>, nread: nat, ev: seq<Event>, n: nat)
    requires Settled(r, q, nread, ev, n) && nread + |FoldsText(folds)| <= MAX_HEADER_SIZE && AllFolded(folds)
    ensures Settled(RunFrom(r, FoldsText(folds)), q, nread + |FoldsText(folds)|, ev + FoldsEvents(folds),
                    n + |FoldsText(folds)|)
    decreases |folds|
  {
    hide RunFrom, Folded, FoldText, Settled, AfterNumber;
    if folds == [] {
      NothingRun(r);
      assert ev + [] == ev;
    } else {
      var f, rest := folds[0], FoldsText(folds[1..]);
      RunSplit(r, FoldText(f), rest);
      FoldRun(r, q, f, nread, ev, n);
      var told := [Data(HeaderValueText, [f.blank] + f.spaces)];
      FoldsRun(RunFrom(r, FoldText(f)), q, folds[1..], nread + |FoldText(f)|, ev + told, n + |FoldText(f)|);
      assert ev + told + FoldsEvents(folds[1..]) == ev + FoldsEvents(folds);
    }
  }

  /** The header up to its number, and what may follow it. */
  function UpToNumber(name: Bytes, lead: Bytes, ds: Bytes): Bytes {
    name + [COLON] + lead + ds
  }

  function AfterDigits(spaces: Bytes, end: Bytes, folds: seq<Fold>): Bytes {
    spaces + end + FoldsText(folds)
  }

  /** A first Content-Length header is read exactly: for every spelling of its name, blanks
      and folded lines before the number, digits, spaces after it, either line end, and folded
      lines after that. A number up to 2^64 - 7 is stored as it is; any other fails, so the
      length neither wraps nor meets the "absent" value. */
  lemma ContentLengthExact(p: Parser, name: Bytes, lead: Bytes, ds: Bytes, spaces: Bytes, end: Bytes, folds: seq<Fold>)
    requires SaysLength(name) && Leading(lead) && AllDigits(ds) && ds != [] && Spaces(spaces) && LineEnd(end)
    requires AllFolded(folds)
    requires p.state == Ending(HeaderFieldStart) && !p.flags.contentLength
    requires p.nread + |UpToNumber(name, lead, ds)| + |AfterDigits(spaces, end, folds)| <= MAX_HEADER_SIZE
    ensures var r := Call(p, UpToNumber(name, lead, ds) + AfterDigits(spaces, end, folds));
            if Numeral(0, ds) <= 0xffff_ffff_ffff_fff9 then
              r.Running? && r.p.contentLength == Numeral(0, ds) && r.p.flags.contentLength &&
              r.p.state == AroundValue(HeaderValueLws) &&
              r.events == [Data(HeaderFieldText, name), Data(HeaderValueText, ds + spaces)] + FoldsEvents(folds)
            else r.Failed? && r.errno == InvalidContentLength && r.events == [Data(HeaderFieldText, name)]
  {
    hide RunFrom, SaysLength, Leading, Spaces, LineEnd, AllFolded, Numeral, AllDigits, NAME;
    hide Start, AfterNumber, FoldsEvents, UpToNumber, AfterDigits;
    StartHeader(p);
    NumberRun(p, name, lead, ds);
    var r0, text, rest := Running(p, None, [], 0), UpToNumber(name, lead, ds), AfterDigits(spaces, end, folds);
    RunSplit(r0, text, rest);
    var r := RunFrom(r0, text);
    if Numeral(0, ds) <= MAX_LENGTH {
      ValueRest(r.p, ds, spaces, end, folds, r.events, |text|);
      TwoThenMore(Data(HeaderFieldText, name), Data(HeaderValueText, ds + spaces), FoldsEvents(folds));
    } else {
      Absorbed(r, rest);
    }
  }

  lemma TwoThenMore(a: Event, b: Event, more: seq<Event>)
    ensures [a] + [b] + more + [] == [a, b] + more
  {
  }

  lemma NumberRun(p: Parser, name: Bytes, lead: Bytes, ds: Bytes)
    requires SaysLength(name) && Leading(lead) && AllDigits(ds) && ds != []
    requires p.state == Ending(HeaderFieldStart) && !p.flags.contentLength
    requires p.nread + |UpToNumber(name, lead, ds)| <= MAX_HEADER_SIZE
    ensures var text := UpToNumber(name, lead, ds);
            var r := RunFrom(Running(p, None, [], 0), text);
            if Numeral(0, ds) <= MAX_LENGTH then
              r.Running? && r == Running(r.p, Some(Piece(HeaderValueText, ds)), [Data(HeaderFieldText, name)],
                                         |text|) &&
              AfterNumber(r.p, HeaderValue) && r.p.nread == p.nread + |text| && r.p.contentLength == Numeral(0, ds) &&
              r.p.flags.contentLength
            else r.Failed? && r.errno == InvalidContentLength && r.events == [Data(HeaderFieldText, name)]
  {
    hide RunFrom, SaysLength, Leading, Numeral, AllDigits, Naming, Reading, NAME, AfterNumber;
    var start := name + [COLON] + lead;
    RunSplit(Running(p, None, [], 0), start, ds);
    BeforeFigures(p, name, lead);
    FiguresRun(BeforeLength(p, |start|), ds, [Data(HeaderFieldText, name)], |start|);
    ReadingIs(BeforeLength(p, |start|), ds);
  }

  lemma StartHeader(p: Parser)
    requires p.state == Ending(HeaderFieldStart)
    ensures Start(p) == Running(p, None, [], 0)
  {
  }

  /** What follows the number, up to the end of its last line. */
  lemma ValueRest(q: Parser, ds: Bytes, spaces: Bytes, end: Bytes, folds: seq<Fold>, ev: seq<Event>, n: nat)
    requires AfterNumber(q, HeaderValue) && Spaces(spaces) && LineEnd(end) && AllFolded(folds)
    requires q.nread + |AfterDigits(spaces, end, folds)| <= MAX_HEADER_SIZE
    ensures var k := |AfterDigits(spaces, end, folds)|;
            Settled(RunFrom(Running(q, Some(Piece(HeaderValueText, ds)), ev, n), AfterDigits(spaces, end, folds)), q,
                    q.nread + k, ev + [Data(HeaderValueText, ds + spaces)] + FoldsEvents(folds), n + k)
  {
    hide RunFrom, Spaces, LineEnd, AllFolded, AfterNumber, Settled, FoldsText, FoldsEvents;
    var r := Running(q, Some(Piece(HeaderValueText, ds)), ev, n);
    RunSplit(r, spaces + end, FoldsText(folds));
    RestOfLine(q, ds, spaces, end, ev, n);
    FoldsRun(RunFrom(r, spaces + end), q, folds, q.nread + |spaces| + |end|,
             ev + [Data(HeaderValueText, ds + spaces)], n + |spaces| + |end|);
  }

  lemma ReadingIs(q: Parser, ds: Bytes)
    requires AllDigits(ds)
    ensures var p := Reading(q, ds);
            AfterNumber(p, HeaderValue) && p.nread == q.nread + |ds| && p.contentLength == Numeral(0, ds) &&
              p.flags.contentLength
  {
    hide Numeral;
  }

  /** The parser where the length is about to be read. */
  function BeforeLength(p: Parser, n: nat): Parser {
    p.(state := AroundValue(HeaderValueDiscardWs), nread := p.nread + n, index := |NAME| - 1,
       headerState := ContentLength)
  }

  lemma BeforeFigures(p: Parser, name: Bytes, lead: Bytes)
    requires SaysLength(name) && Leading(lead) && p.state == Ending(HeaderFieldStart)
    requires p.nread + |name| + |lead| + 1 <= MAX_HEADER_SIZE
    ensures var start := name + [COLON] + lead;
            RunFrom(Running(p, None, [], 0), start) ==
              Running(BeforeLength(p, |start|), None, [Data(HeaderFieldText, name)], |start|)
  {
    hide RunFrom, SaysLength, Leading;
    RunSplit(Running(p, None, [], 0), name + [COLON], lead);
    NameAndColon(p, name);
    LeadRun(BeforeLength(p, |name| + 1), lead, [Data(HeaderFieldText, name)], |name| + 1);
  }

  lemma NameAndColon(p: Parser, name: Bytes)
    requires SaysLength(name) && p.state == Ending(HeaderFieldStart) && p.nread + |name| + 1 <= MAX_HEADER_SIZE
    ensures RunFrom(Running(p, None, [], 0), name + [COLON]) ==
            Running(BeforeLength(p, |name| + 1), None, [Data(HeaderFieldText, name)], |name| + 1)
  {
    hide RunFrom, SaysLength, Next, NAME, Naming, BeforeLength;
    var r0, k := Running(p, None, [], 0), |NAME|;
    NameLength(name);
    Named(p);
    var q := Naming(p, k);
    RunSplit(r0, name, [COLON]);
    NameRun(p, name, k, [], 0);
    assert name[..k] == name;
    OneByte(RunFrom(r0, name), COLON);
    ColonTurn(q, name, [], k);
    assert [] + [Data(HeaderFieldText, name)] == [Data(HeaderFieldText, name)];
  }

  lemma NameLength(name: Bytes)
    requires SaysLength(name)
    ensures |name| == |NAME| == 14
  {
  }

  lemma Named(p: Parser)
    ensures var q := Naming(p, |NAME|);
            q.state == HeaderField && q.nread == p.nread + |NAME| &&
            q.(state := AroundValue(HeaderValueDiscardWs), nread := q.nread + 1) == BeforeLength(p, |NAME| + 1)
  {
  }

  // ----- the body it frames

  lemma {:induction false} IdentityRun(q: Parser, text: Bytes, n: nat)
    requires q.state == BodyIdentity && Framed(q) && 0 < |text| < q.contentLength
    ensures RunFrom(Running(q, None, [], n), text) ==
            Running(BodyAfter(q, |text|), Some(Piece(BodyText, text)), [], n + |text|)
    decreases |text|
  {
    hide Next, Framed;
    var k := |text| - 1;
    BodyMore(q, k);
    if k == 0 {
      assert text[..0] == [] && text == [] + [text[0]];
      BodyNone(q);
      BodyStep(q, None, [], n, text[0]);
    } else {
      IdentityRun(q, text[..k], n);
      IdentityFramed(q, k);
      BodyStep(BodyAfter(q, k), Some(Piece(BodyText, text[..k])), [], n + k, text[k]);
      assert text[..k] + [text[k]] == text;
    }
  }

  lemma IdentityFramed(q: Parser, k: nat)
    requires q.state == BodyIdentity && Framed(q) && k < q.contentLength
    ensures Framed(BodyAfter(q, k)) && BodyAfter(q, k) == q.(contentLength := q.contentLength - k)
  {
  }

  /** A body of known length ends with its last byte, however it is cut into calls: the body
      callbacks add up to it, and exactly one message ends. */
  lemma FixedBodyDecodes(p: Parser, text: Bytes, pieces: seq<Bytes>)
    requires p.state == BodyIdentity && Framed(p) && |text| == p.contentLength
    requires pieces != [] && AllHaveData(pieces) && Flatten(pieces) == text
    ensures var r := Calls(p, pieces);
            !r.Failed? && (r.Stopped? <==> p.upgrade) && r.read == |text| && r.p.contentLength == 0 &&
            Join(r.events) == [Data(BodyText, text), MessageComplete] && BodyOf(r.events) == text &&
              Completions(r.events) == 1
  {
    hide Join, Completed;
    IdentityCall(p, text);
    CutIndependence(p, pieces);
    Told(text);
    CompletedIs(p.(contentLength := 0), [Data(BodyText, text), MessageComplete], |text|);
    JoinedBody(Calls(p, pieces).events);
  }

  lemma CompletedIs(q: Parser, ev: seq<Event>, n: nat)
    ensures var r := Completed(q, ev, n);
            !r.Failed? && (r.Stopped? <==> q.upgrade) && r.read == n && r.events == ev &&
              r.p.contentLength == q.contentLength
  {
    hide NewMessage;
  }

  /** The same, in one call. */
  lemma IdentityCall(p: Parser, text: Bytes)
    requires p.state == BodyIdentity && Framed(p) && |text| == p.contentLength
    ensures Call(p, text) == Completed(p.(contentLength := 0), [Data(BodyText, text), MessageComplete], |text|)
  {
    hide NewMessage, RunFrom, Framed;
    IdentityWhole(p, text);
    var told := [Data(BodyText, text), MessageComplete];
    assert told + [] == told;
  }

  lemma IdentityWhole(p: Parser, text: Bytes)
    requires p.state == BodyIdentity && Framed(p) && |text| == p.contentLength
    ensures RunFrom(Running(p, None, [], 0), text) ==
            Completed(p.(contentLength := 0), [Data(BodyText, text), MessageComplete], |text|)
  {
    hide NewMessage, Next, Framed, RunFrom, Completed;
    LengthPositive(p);
    var k := |text| - 1;
    RunLast(Running(p, None, [], 0), text);
    if k == 0 {
      assert text[..0] == [];
      NothingRun(Running(p, None, [], 0));
      LastOne(p, None, [], text[0]);
      assert [] + [text[0]] == text;
    } else {
      IdentityRun(p, text[..k], 0);
      IdentityFramed(p, k);
      LastOne(BodyAfter(p, k), Some(Piece(BodyText, text[..k])), text[..k], text[k]);
      assert text == text[..k] + [text[k]];
    }
  }

  lemma LastOne(q: Parser, open: Option<Piece>, text: Bytes, ch: byte)
    requires q.state == BodyIdentity && Framed(q) && q.contentLength == 1
    requires open == if text == [] then None else Some(Piece(BodyText, text))
    ensures Next(Running(q, open, [], |text|), ch) ==
            Completed(q.(contentLength := 0), [Data(BodyText, text + [ch]), MessageComplete], |text| + 1)
  {
    hide Next, Framed, Completed;
    LastByte(q, open, [], |text|, ch);
    assert [] + [Data(BodyText, text + [ch])] + [MessageComplete] == [Data(BodyText, text + [ch]), MessageComplete];
  }

  lemma LengthPositive(p: Parser)
    requires p.state == BodyIdentity && Framed(p)
    ensures p.contentLength > 0
  {
  }

  lemma Told(text: Bytes)
    ensures var es := [Data(BodyText, text), MessageComplete];
            Join(es) == es && BodyOf(es) == text && Completions(es) == 1
  {
    var a, b := Data(BodyText, text), MessageComplete;
    assert [a, b] == [a] + [b];
    BodySplit([a], [b]);
    BodyOfOne(a);
    BodyOfOne(b);
    JoinLast([a], b);
    JoinLast([], a);
    assert [] + [a] == [a] && Join([]) == [];
  }
}
