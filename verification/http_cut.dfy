/** Cut independence: however the input is cut into calls, the parser ends in the same state
    and the callbacks are told the same, once adjacent data of one kind is joined. */
module HttpCut {
  import opened Bytes
  import opened HttpTypes
  import opened HttpTurn
  import opened HttpRun

  lemma JoinLast(ev: seq<Event>, e: Event)
    ensures Join(ev + [e]) == Add(Join(ev), e)
  {
    JoinSplit(ev, [e]);
    assert AddAll(Join(ev), [e]) == AddAll(Add(Join(ev), e), [e][1..]);
  }

  /** Growing the data under way adds the same to the stream as a callback for the rest. */
  lemma JoinPiece(ev: seq<Event>, k: Kind, x: Bytes, y: Bytes)
    ensures Join(ev + [Data(k, x + y)]) == Join(ev + [Data(k, x)] + [Data(k, y)])
  {
    JoinLast(ev, Data(k, x + y));
    JoinLast(ev, Data(k, x));
    JoinLast(ev + [Data(k, x)], Data(k, y));
    AddTwice(Join(ev), k, x, y);
  }

  ghost predicate Of(open: Option<Piece>, k: Kind) {
    open.Some? ==> open.value.kind == k
  }

  lemma FinishStream(open: Option<Piece>, k: Kind, ev: seq<Event>, ch: byte)
    requires Of(open, k)
    ensures var (o, es) := Perform(open, Finish(k), ch);
            o == None && Join(ev + es) == Join(ev + Pending(open) + [Data(k, [ch])])
  {
    hide Join;
    if open.Some? {
      JoinPiece(ev, k, open.value.bytes, [ch]);
    } else {
      assert [] + [ch] == [ch];
      assert ev + [] + [Data(k, [ch])] == ev + [Data(k, [ch])];
    }
  }

  lemma OnePerformed(open: Option<Piece>, ops: seq<Op>, ch: byte)
    requires |ops| == 1
    ensures PerformAll(open, ops, ch) == Perform(open, ops[0], ch)
  {
    var (o, es) := Perform(open, ops[0], ch);
    assert es + [] == es;
  }

  lemma TwoPerformed(ops: seq<Op>, ch: byte)
    requires ops == [Empty(HeaderValueText), Open(HeaderFieldText)]
    ensures PerformAll(None, ops, ch) == (Some(Piece(HeaderFieldText, [])), [Data(HeaderValueText, [])])
  {
    OnePerformed(None, ops[1..], ch);
    var e := Data(HeaderValueText, []);
    assert ops[1..] == [Open(HeaderFieldText)];
    assert PerformAll(None, ops[1..], ch) == (Some(Piece(HeaderFieldText, [])), []);
    assert [e] + [] == [e];
  }

  // ----- what a cut may have told before

  /** Of two runs over the same bytes the second, `be` and `bo`, was cut into calls: it has told
      what the first has, or besides, as a call ended, some of the data that is still under way
      in the first; and what is under way in it is the rest of that data. */
  ghost predicate Lag(ao: Option<Piece>, ae: seq<Event>, bo: Option<Piece>, be: seq<Event>) {
    || (bo == ao && Join(be) == Join(ae))
    || (ao.Some? && exists k: nat :: Behind(ao.value, ae, bo, be, k))
  }

  ghost predicate Behind(d: Piece, ae: seq<Event>, bo: Option<Piece>, be: seq<Event>, k: nat) {
    && k <= |d.bytes| && Join(be) == Join(ae + [Data(d.kind, d.bytes[..k])])
    && (bo == Some(Piece(d.kind, d.bytes[k..])) || (bo == None && k == |d.bytes|))
  }

  /** The streams with what is under way are then the same. */
  lemma LagStream(ao: Option<Piece>, ae: seq<Event>, bo: Option<Piece>, be: seq<Event>)
    requires Lag(ao, ae, bo, be)
    ensures Join(ae + Pending(ao)) == Join(be + Pending(bo))
  {
    hide Join;
    if bo == ao && Join(be) == Join(ae) {
      JoinCongruence(ae, be, Pending(ao));
    } else {
      var d := ao.value;
      var k: nat :| Behind(d, ae, bo, be, k);
      BehindStream(d, ae, bo, be, k);
    }
  }

  lemma BehindStream(d: Piece, ae: seq<Event>, bo: Option<Piece>, be: seq<Event>, k: nat)
    requires Behind(d, ae, bo, be, k)
    ensures Join(ae + [Data(d.kind, d.bytes)]) == Join(be + Pending(bo))
  {
    hide Join;
    assert d.bytes[..k] + d.bytes[k..] == d.bytes;
    if bo == None {
      assert be + [] == be && d.bytes[..k] == d.bytes;
    } else {
      JoinPiece(ae, d.kind, d.bytes[..k], d.bytes[k..]);
      JoinCongruence(be, ae + [Data(d.kind, d.bytes[..k])], [Data(d.kind, d.bytes[k..])]);
    }
  }

  lemma LagTwice(ao: Option<Piece>, ae: seq<Event>, bo: Option<Piece>, be: seq<Event>, co: Option<Piece>,
                 ce: seq<Event>)
    requires Lag(ao, ae, bo, be) && Lag(bo, be, co, ce)
    ensures Lag(ao, ae, co, ce)
  {
    hide Join;
    if bo == ao && Join(be) == Join(ae) {
      if !(co == bo && Join(ce) == Join(be)) {
        var k: nat :| Behind(bo.value, be, co, ce, k);
        JoinCongruence(be, ae, [Data(bo.value.kind, bo.value.bytes[..k])]);
        assert Behind(ao.value, ae, co, ce, k);
      }
    } else {
      var k: nat :| Behind(ao.value, ae, bo, be, k);
      if co == bo && Join(ce) == Join(be) {
        assert Behind(ao.value, ae, co, ce, k);
      } else {
        var l: nat :| Behind(bo.value, be, co, ce, l);
        BehindTwice(ao.value, ae, bo, be, co, ce, k, l);
      }
    }
  }

  lemma BehindTwice(d: Piece, ae: seq<Event>, bo: Option<Piece>, be: seq<Event>, co: Option<Piece>, ce: seq<Event>,
          k: nat, l: nat)
    requires Behind(d, ae, bo, be, k) && bo.Some? && Behind(bo.value, be, co, ce, l)
    ensures Behind(d, ae, co, ce, k + l)
  {
    hide Join;
    var rest := d.bytes[k..];
    assert d.bytes[..k] + rest[..l] == d.bytes[..k + l] && rest[l..] == d.bytes[k + l..];
    JoinPiece(ae, d.kind, d.bytes[..k], rest[..l]);
    JoinCongruence(be, ae + [Data(d.kind, d.bytes[..k])], [Data(d.kind, rest[..l])]);
  }

  // ----- one turn

  /** What one turn does to the data under way and to the callbacks. */
  ghost predicate TurnKeeps(ao: Option<Piece>, ae: seq<Event>, bo: Option<Piece>, be: seq<Event>, ops: seq<Op>,
          notes: seq<Event>, z': Slot, ch: byte)
  {
    var (o, es) := PerformAll(ao, ops, ch);
    var (o', es') := PerformAll(bo, ops, ch);
    && Compatible(z', Grow(o, ch)) && Compatible(z', Grow(o', ch))
    && Lag(Grow(o, ch), ae + es + notes, Grow(o', ch), be + es' + notes)
  }

  lemma TurnLag(z: Slot, ao: Option<Piece>, ae: seq<Event>, bo: Option<Piece>, be: seq<Event>, ops: seq<Op>,
          notes: seq<Event>, z': Slot, ch: byte)
    requires Compatible(z, ao) && Compatible(z, bo) && Lag(ao, ae, bo, be) && Shape(z, ops, notes, z')
    ensures TurnKeeps(ao, ae, bo, be, ops, notes, z', ch)
  {
    hide Join;
    if z.Outside? {
      SettledLag(z, ae, be, ops, notes, z', ch);
    } else if ops == [] || ops[0].Open? {
      hide Lag;
      GoesOn(z, ao, bo, ops, notes, z', ch);
      GrowLag(ao, ae, bo, be, if z.Inside? then z.kind else BodyText, ch, ops == []);
      assert ae + [] + [] == ae && be + [] + [] == be;
    } else {
      hide Shape;
      EndsLag(z, ao, ae, bo, be, ops, notes, z', ch);
    }
  }

  /** Where no data is under way, both runs do the same. */
  lemma SettledLag(z: Slot, ae: seq<Event>, be: seq<Event>, ops: seq<Op>, notes: seq<Event>, z': Slot, ch: byte)
    requires z.Outside? && Join(be) == Join(ae) && Shape(z, ops, notes, z')
    ensures TurnKeeps(None, ae, None, be, ops, notes, z', ch)
  {
    hide Join;
    var es := PerformAll(None, ops, ch).1;
    JoinCongruence(be, ae, es + notes);
    assert ae + es + notes == ae + (es + notes) && be + es + notes == be + (es + notes);
    if |ops| == 1 {
      OnePerformed(None, ops, ch);
    } else if |ops| > 1 {
      TwoPerformed(ops, ch);
    }
  }

  /** Data goes on: nothing is told. */
  lemma GoesOn(z: Slot, ao: Option<Piece>, bo: Option<Piece>, ops: seq<Op>, notes: seq<Event>, z': Slot, ch: byte)
    requires !z.Outside? && Compatible(z, ao) && Compatible(z, bo) && Shape(z, ops, notes, z')
    requires ops == [] || ops[0].Open?
    ensures notes == [] && Holds(z', if z.Inside? then z.kind else BodyText)
    ensures ops == [] ==> z.Inside? && ao.Some? && bo.Some?
    ensures var k := if z.Inside? then z.kind else BodyText;
            Of(ao, k) && Of(bo, k) &&
            PerformAll(ao, ops, ch) == (Some(Opened(ao, k)), []) && PerformAll(bo, ops, ch) == (Some(Opened(bo, k)), [])
  {
    if ops != [] {
      OnePerformed(ao, ops, ch);
      OnePerformed(bo, ops, ch);
    }
  }

  ghost function Opened(o: Option<Piece>, k: Kind): Piece {
    if o.Some? then o.value else Piece(k, [])
  }

  lemma GrowLag(ao: Option<Piece>, ae: seq<Event>, bo: Option<Piece>, be: seq<Event>, kind: Kind, ch: byte,
                inside: bool)
    requires Lag(ao, ae, bo, be) && Of(ao, kind) && Of(bo, kind)
    ensures Lag(Grow(Some(Opened(ao, kind)), ch), ae, Grow(Some(Opened(bo, kind)), ch), be)
  {
    hide Join;
    if !(bo == ao && Join(be) == Join(ae)) {
      var d := ao.value;
      var k: nat :| Behind(d, ae, bo, be, k);
      var d' := Piece(kind, d.bytes + [ch]);
      assert d'.bytes[..k] == d.bytes[..k] && d'.bytes[k..] == d.bytes[k..] + [ch];
      assert Behind(d', ae, Grow(Some(Opened(bo, kind)), ch), be, k);
    }
  }

  /** Data ends: the two streams are then the same. */
  lemma EndsLag(z: Slot, ao: Option<Piece>, ae: seq<Event>, bo: Option<Piece>, be: seq<Event>, ops: seq<Op>,
          notes: seq<Event>, z': Slot, ch: byte)
    requires !z.Outside? && Compatible(z, ao) && Compatible(z, bo) && Lag(ao, ae, bo, be) && Shape(z, ops, notes, z')
    requires ops != [] && !ops[0].Open?
    ensures TurnKeeps(ao, ae, bo, be, ops, notes, z', ch)
  {
    hide Join;
    var k := ops[0].kind;
    OnePerformed(ao, ops, ch);
    OnePerformed(bo, ops, ch);
    LagStream(ao, ae, bo, be);
    var es, es' := PerformAll(ao, ops, ch).1, PerformAll(bo, ops, ch).1;
    if ops[0].Close? {
      assert ae + es == ae + Pending(ao) && be + es' == be + Pending(bo);
    } else {
      FinishStream(ao, k, ae, ch);
      FinishStream(bo, k, be, ch);
      JoinCongruence(ae + Pending(ao), be + Pending(bo), [Data(k, [ch])]);
    }
    JoinCongruence(ae + es, be + es', notes);
  }

  // ----- runs that differ only in where callbacks were cut

  ghost predicate Similar(a: Run, b: Run) {
    match a
    case Running(p, open, ev, n) =>
      b.Running? && b.p == p && b.read == n && Compatible(SlotOf(p.state), open) &&
      Compatible(SlotOf(p.state), b.open) && Lag(open, ev, b.open, b.events)
    case Stopped(p, ev, n) => b.Stopped? && b.p == p && b.read == n && Join(ev) == Join(b.events)
    case Failed(e, open, ev, n) => b.Failed? && b.errno == e && b.read == n && Lag(open, ev, b.open, b.events)
  }

  lemma NextSimilar(a: Run, b: Run, ch: byte)
    requires Similar(a, b)
    ensures Similar(Next(a, ch), Next(b, ch))
  {
    hide Byte, Shape, FailShape, Join, PerformAll, Compatible, Lag;
    if a.Running? {
      ByteShape(a.p, ch);
      var t, z := Byte(a.p, ch), SlotOf(a.p.state);
      match t {
        case Failing(_, ops, notes) => FailLag(z, a.open, a.events, b.open, b.events, ops, notes, ch);
        case Go(q, ops, notes) => TurnLag(z, a.open, a.events, b.open, b.events, ops, notes, SlotOf(q.state), ch);
        case Quit(_, ops, notes) =>
          TurnLag(z, a.open, a.events, b.open, b.events, ops, notes, Outside, ch);
          QuitLag(a.open, a.events, b.open, b.events, ops, notes, ch);
      }
    }
  }

  lemma FailLag(z: Slot, ao: Option<Piece>, ae: seq<Event>, bo: Option<Piece>, be: seq<Event>, ops: seq<Op>,
          notes: seq<Event>, ch: byte)
    requires Compatible(z, ao) && Compatible(z, bo) && Lag(ao, ae, bo, be) && FailShape(z, ops, notes)
    ensures var (o, es) := PerformAll(ao, ops, ch);
            var (o', es') := PerformAll(bo, ops, ch);
            Lag(o, ae + es + notes, o', be + es' + notes)
  {
    hide Join;
    if z.Outside? {
      if ops != [] { OnePerformed(None, ops, ch); }
      var es := PerformAll(None, ops, ch).1;
      JoinCongruence(be, ae, es + notes);
      assert ae + es + notes == ae + (es + notes) && be + es + notes == be + (es + notes);
    } else {
      assert ae + [] + [] == ae && be + [] + [] == be;
    }
  }

  lemma QuitLag(ao: Option<Piece>, ae: seq<Event>, bo: Option<Piece>, be: seq<Event>, ops: seq<Op>, notes: seq<Event>,
          ch: byte)
    requires TurnKeeps(ao, ae, bo, be, ops, notes, Outside, ch)
    ensures Join(ae + PerformAll(ao, ops, ch).1 + notes) == Join(be + PerformAll(bo, ops, ch).1 + notes)
  {
    hide Join, PerformAll;
  }

  lemma {:induction false} RunSimilar(a: Run, b: Run, data: Bytes)
    requires Similar(a, b)
    ensures Similar(RunFrom(a, data), RunFrom(b, data))
    decreases |data|
  {
    hide Similar, Next;
    if data != [] {
      RunSimilar(a, b, data[..|data| - 1]);
      NextSimilar(RunFrom(a, data[..|data| - 1]), RunFrom(b, data[..|data| - 1]), data[|data| - 1]);
    }
  }

  /** A run over `a + b` is a run over `a` continued over `b`. */
  lemma {:induction false} RunSplit(r: Run, a: Bytes, b: Bytes)
    ensures RunFrom(r, a + b) == RunFrom(RunFrom(r, a), b)
    decreases |b|
  {
    hide Next;
    if b == [] {
      assert a + b == a;
    } else {
      assert (a + b)[..|a + b| - 1] == a + b[..|b| - 1];
      RunSplit(r, a, b[..|b| - 1]);
    }
  }

  /** The same run, with more told and read before it. */
  function Prepend(events: seq<Event>, read: nat, r: Run): Run {
    match r
    case Running(p, open, more, n) => Running(p, open, events + more, read + n)
    case Stopped(p, more, n) => Stopped(p, events + more, read + n)
    case Failed(e, open, more, n) => Failed(e, open, events + more, read + n)
  }

  lemma NextPrepend(events: seq<Event>, read: nat, r: Run, ch: byte)
    ensures Next(Prepend(events, read, r), ch) == Prepend(events, read, Next(r, ch))
  {
    hide Byte, PerformAll;
    if r.Running? {
      var t := Byte(r.p, ch);
      var es := PerformAll(r.open, t.ops, ch).1;
      assert events + r.events + es + t.notes == events + (r.events + es + t.notes);
    }
  }

  lemma {:induction false} RunPrepend(events: seq<Event>, read: nat, r: Run, data: Bytes)
    ensures RunFrom(Prepend(events, read, r), data) == Prepend(events, read, RunFrom(r, data))
    decreases |data|
  {
    hide Next, Prepend;
    if data != [] {
      RunPrepend(events, read, r, data[..|data| - 1]);
      NextPrepend(events, read, RunFrom(r, data[..|data| - 1]), data[|data| - 1]);
    }
  }

  /** Two outcomes alike: the same parser state, bytes read and error, and the same events
      once adjacent data of one kind is joined. When the run `a` of one call fails, data under
      way is never told; the calls `b` tell everything it tells, and beyond that at most what
      an earlier call ended with, the beginning of that data. */
  ghost predicate Same(a: Run, b: Run) {
    match a
    case Running(p, _, ev, n) => b.Running? && b.p == p && b.read == n && Join(b.events) == Join(ev)
    case Stopped(p, ev, n) => b.Stopped? && b.p == p && b.read == n && Join(b.events) == Join(ev)
    case Failed(e, open, ev, n) => b.Failed? && b.errno == e && b.read == n && Lag(open, ev, b.open, b.events)
  }

  lemma SimilarFlush(a: Run, b: Run)
    requires Similar(a, b)
    ensures Same(Flush(a), Flush(b))
  {
    hide Lag, Join;
    if a.Running? { LagStream(a.open, a.events, b.open, b.events); }
  }

  /** What `Same` says of the callbacks of failing calls. */
  ghost predicate TellsAtLeast(open: Option<Piece>, ev: seq<Event>, told: seq<Event>) {
    || Join(told) == Join(ev)
    || (open.Some? && exists k: nat :: ToldUpTo(open.value, ev, told, k))
  }

  ghost predicate ToldUpTo(d: Piece, ev: seq<Event>, told: seq<Event>, k: nat) {
    k <= |d.bytes| && Join(told) == Join(ev + [Data(d.kind, d.bytes[..k])])
  }

  lemma LagTells(ao: Option<Piece>, ae: seq<Event>, bo: Option<Piece>, be: seq<Event>)
    requires Lag(ao, ae, bo, be)
    ensures TellsAtLeast(ao, ae, be)
  {
    hide Join;
    if !(bo == ao && Join(be) == Join(ae)) {
      var k: nat :| Behind(ao.value, ae, bo, be, k);
      assert ToldUpTo(ao.value, ae, be, k);
    }
  }

  /** Ending a call and starting the next one tells a caller nothing new. */
  lemma Resumed(r: Run)
    requires r.Running? && Similar(r, r)
    ensures Similar(r, Prepend(r.events + Pending(r.open), r.read, Start(r.p)))
  {
    hide Join;
    var all, open := r.events + Pending(r.open), Start(r.p).open;
    assert all + [] == all && r.events + [] == r.events;
    if r.open.Some? {
      var d := r.open.value;
      assert d.bytes[..|d.bytes|] == d.bytes && d.bytes[|d.bytes|..] == [];
      assert Behind(d, r.events, open, all, |d.bytes|);
    }
  }

  /** The calls of a caller who hands over `pieces` one after another, and stops if the
      parser does. */
  function Calls(p: Parser, pieces: seq<Bytes>): Run
    decreases |pieces|
  {
    if pieces == [] then Running(p, None, [], 0)
    else
      var first := Call(p, pieces[0]);
      if first.Running? then Prepend(first.events, first.read, Calls(first.p, pieces[1..])) else first
  }

  /** Cut independence, for one cut: calls on `a` and then `b` end as one call on `a + b`. */
  lemma {:induction false} CutOnce(p: Parser, a: Bytes, b: Bytes)
    requires a != [] && b != []
    ensures var first := Call(p, a);
            if first.Running? then Same(Call(p, a + b), Prepend(first.events, first.read, Call(first.p, b)))
            else Call(p, a + b) == first
  {
    hide Next, Join;
    var start := Start(p);
    var r := RunFrom(start, a);
    StartSimilar(p);
    RunSimilar(start, start, a);
    RunSplit(start, a, b);
    if r.Running? {
      var all := r.events + Pending(r.open);
      var again := Prepend(all, r.read, Start(r.p));
      Resumed(r);
      RunSimilar(r, again, b);
      SimilarFlush(RunFrom(r, b), RunFrom(again, b));
      RunPrepend(all, r.read, Start(r.p), b);
      FlushPrepend(all, r.read, RunFrom(Start(r.p), b));
    } else {
      Absorbed(r, b);
    }
  }

  lemma StartSimilar(p: Parser)
    ensures Similar(Start(p), Start(p))
  {
  }

  lemma FlushPrepend(events: seq<Event>, read: nat, r: Run)
    ensures Flush(Prepend(events, read, r)) == Prepend(events, read, Flush(r))
  {
    if r.Running? {
      assert events + r.events + Pending(r.open) == events + (r.events + Pending(r.open));
    }
  }

  lemma {:induction false} Absorbed(r: Run, data: Bytes)
    requires !r.Running?
    ensures RunFrom(r, data) == r
    decreases |data|
  {
    if data != [] { Absorbed(r, data[..|data| - 1]); }
  }

  /** A call without data would mean the end of the connection. */
  ghost predicate AllHaveData(pieces: seq<Bytes>) {
    forall k :: 0 <= k < |pieces| ==> pieces[k] != []
  }

  function Flatten(pieces: seq<Bytes>): Bytes {
    if pieces == [] then [] else pieces[0] + Flatten(pieces[1..])
  }

  lemma SamePrepend(events: seq<Event>, read: nat, a: Run, b: Run)
    requires Same(a, b)
    ensures Same(Prepend(events, read, a), Prepend(events, read, b))
  {
    hide Join;
    if a.Failed? {
      LagPrepend(events, a.open, a.events, b.open, b.events);
    } else {
      JoinCommon(events, a.events, b.events);
    }
  }

  lemma LagPrepend(events: seq<Event>, ao: Option<Piece>, ae: seq<Event>, bo: Option<Piece>, be: seq<Event>)
    requires Lag(ao, ae, bo, be)
    ensures Lag(ao, events + ae, bo, events + be)
  {
    hide Join;
    if bo == ao && Join(be) == Join(ae) {
      JoinCommon(events, be, ae);
    } else {
      var d := ao.value;
      var k: nat :| Behind(d, ae, bo, be, k);
      JoinCommon(events, be, ae + [Data(d.kind, d.bytes[..k])]);
      assert events + ae + [Data(d.kind, d.bytes[..k])] == events + (ae + [Data(d.kind, d.bytes[..k])]);
      assert Behind(d, events + ae, bo, events + be, k);
    }
  }

  lemma SameSelf(a: Run)
    ensures Same(a, a)
  {
  }

  lemma SameTwice(a: Run, b: Run, c: Run)
    requires Same(a, b) && Same(b, c)
    ensures Same(a, c)
  {
    hide Lag, Join;
    if a.Failed? { LagTwice(a.open, a.events, b.open, b.events, c.open, c.events); }
  }

  /** Joined streams that agree still agree after a common beginning. */
  lemma JoinCommon(events: seq<Event>, a: seq<Event>, b: seq<Event>)
    requires Join(a) == Join(b)
    ensures Join(events + a) == Join(events + b)
  {
    JoinRejoin(events, a);
    JoinRejoin(events, b);
  }

  lemma {:induction false} JoinRejoin(events: seq<Event>, a: seq<Event>)
    ensures Join(events + Join(a)) == Join(events + a)
    decreases |a|
  {
    hide Join;
    if a == [] {
      JoinNothing();
    } else {
      var n := |a| - 1;
      assert a == a[..n] + [a[n]];
      JoinRejoin(events, a[..n]);
      JoinLast(a[..n], a[n]);
      var s, e := Join(a[..n]), a[n];
      assert events + a == events + a[..n] + [e];
      JoinLast(events + a[..n], e);
      JoinAdd(events, s, e);
    }
  }

  lemma JoinNothing()
    ensures Join([]) == []
  {
  }

  lemma JoinAdd(events: seq<Event>, s: seq<Event>, e: Event)
    ensures Join(events + Add(s, e)) == Add(Join(events + s), e)
  {
    hide Join;
    JoinLast(events + s, e);
    assert events + s + [e] == events + (s + [e]);
    var m := |s| - 1;
    if s != [] && e.Data? && s[m].Data? && s[m].kind == e.kind {
      var x := s[m];
      assert s == s[..m] + [x];
      assert events + s == events + s[..m] + [x];
      assert events + Add(s, e) == events + s[..m] + [Data(e.kind, x.bytes + e.bytes)];
      JoinPiece(events + s[..m], e.kind, x.bytes, e.bytes);
    }
  }

  /** Cut independence: for every way to cut the input into calls with data, and every parser
      state, the calls end as one call on the whole input does. */
  lemma {:induction false} CutIndependence(p: Parser, pieces: seq<Bytes>)
    requires pieces != [] && AllHaveData(pieces)
    ensures Same(Call(p, Flatten(pieces)), Calls(p, pieces))
    decreases |pieces|
  {
    hide Call, Join, Lag;
    var first := Call(p, pieces[0]);
    SameSelf(first);
    if |pieces| == 1 {
      assert Flatten(pieces) == pieces[0];
      if first.Running? {
        CallFlushed(p, pieces[0]);
        assert first.events + [] == first.events;
      }
    } else {
      CutOnce(p, pieces[0], Flatten(pieces[1..]));
      if first.Running? {
        CutIndependence(first.p, pieces[1..]);
        var whole, rest := Call(first.p, Flatten(pieces[1..])), Calls(first.p, pieces[1..]);
        SamePrepend(first.events, first.read, whole, rest);
        SameTwice(Call(p, Flatten(pieces)), Prepend(first.events, first.read, whole),
                  Prepend(first.events, first.read, rest));
      }
    }
  }

  lemma CallFlushed(p: Parser, data: Bytes)
    ensures Call(p, data).Running? ==> Call(p, data).open == None
  {
  }
}
