/** The header fields of a message: what each says, and what the parser makes of it. */
module HttpHeads {
  import opened Bytes
  import opened Decimals
  import opened HttpTypes
  import opened HttpTurn
  import opened HttpRun
  import opened HttpCut
  import opened HttpFraming
  import opened HttpExecute
  import opened HttpChunks
  import opened HttpLengths
  import opened HttpTrailers
  import opened HttpNames
  import opened HttpValues
  import opened HttpOptions

  // ----- what a field says

  ghost predicate IsConnection(name: Bytes) {
    Spells(name, CONNECTION) || Spells(name, PROXY)
  }

  /** Transfer-Encoding, with chunked as the last coding. */
  ghost predicate SaysChunked(f: Field) {
    Spells(f.name, TRANSFER) && f.value != [] && EndsChunked(Items(f.value))
  }

  /** Connection or Proxy-Connection, with the option among those heard. */
  ghost predicate SaysOption(f: Field, word: string) {
    IsConnection(f.name) && f.value != [] && SomeSays(Options, Items(f.value), |Items(f.value)|, word)
  }

  /** Upgrade, with any value. */
  ghost predicate SaysUpgrade(f: Field) {
    Spells(f.name, UPGRADE) && f.value != []
  }

  /** The fields of a message: any name, any blanks before the value, and any value on one line or
      none. A Content-Length needs a number of at most 2^64 - 7. */
  ghost predicate Allowed(f: Field, lenient: bool) {
    && IsName(f.name) && Leading(f.lead) && LineEnd(f.end)
    && if Spells(f.name, NAME) then IsLength(f) && LengthOf(f) <= MAX_LENGTH
       else f.value == [] || IsValue(f.value, lenient && !Spells(f.name, TRANSFER) && !IsConnection(f.name))
  }

  ghost predicate AllAllowed(fs: seq<Field>, lenient: bool) {
    forall k :: 0 <= k < |fs| ==> Allowed(fs[k], lenient)
  }

  // ----- fields

  /** What a field changes in the parser. */
  ghost function Effect(c: Parser, f: Field): Parser {
    c.(transferEncoding := c.transferEncoding || NamesCoding(f.name), flags := FlagsEffect(c.flags, f),
       contentLength := if IsLength(f) then LengthOf(f) else c.contentLength)
  }

  ghost function FlagsEffect(fl: Flags, f: Field): Flags {
    fl.(chunked := fl.chunked || SaysChunked(f), keepAlive := fl.keepAlive || SaysOption(f, KEEP_ALIVE),
        close := fl.close || SaysOption(f, CLOSE), connUpgrade := fl.connUpgrade || SaysOption(f, UPGRADE),
        contentLength := fl.contentLength || IsLength(f), upgrade := fl.upgrade || SaysUpgrade(f))
  }

  /** Which names lead to which states. */
  lemma NameStates(name: Bytes)
    requires name != []
    ensures Spells(name, TRANSFER) ==> StateOf(name) == TransferEncoding && !Spells(name, NAME)
    ensures IsConnection(name) ==> StateOf(name) == Connection && !Spells(name, NAME) && !Spells(name, TRANSFER)
    ensures Spells(name, NAME) ==> StateOf(name) == ContentLength
    ensures Spells(name, UPGRADE) <==> StateOf(name) == Upgrade
    ensures !Spells(name, NAME) && !Spells(name, TRANSFER) && !IsConnection(name) ==> PlainName(StateOf(name))
  {
    WordsArePlain();
    BeginsOne(name);
    hide Begins;
  }

  /** A field says one thing at most. */
  lemma OneThing(f: Field)
    requires f.name != []
    ensures !Spells(f.name, TRANSFER) ==> !SaysChunked(f)
    ensures !IsConnection(f.name) ==> forall word :: !SaysOption(f, word)
    ensures !Spells(f.name, NAME) ==> !IsLength(f)
    ensures SaysUpgrade(f) <==> StateOf(f.name) == Upgrade && f.value != []
    ensures f.value == [] ==> !SaysChunked(f) && !SaysUpgrade(f) && forall word :: !SaysOption(f, word)
    ensures Spells(f.name, TRANSFER) || Spells(f.name, NAME) || IsConnection(f.name) ==> !SaysUpgrade(f)
  {
    NameStates(f.name);
    hide Spells, StateOf, EndsChunked, SomeSays, Figures;
  }

  /** The value of a field, after its name. */
  lemma ValueRuns(p: Parser, c: Parser, f: Field, ev: seq<Event>, n: nat)
    requires p.state == AroundValue(HeaderValueDiscardWs) && p.headerState == StateOf(f.name) && p.lenient == c.lenient
    requires Core(p) == Noted(c, NamesCoding(f.name)) && Allowed(f, c.lenient)
    requires IsLength(f) ==> !p.flags.contentLength
    requires p.nread + |f.value| + |f.end| <= MAX_HEADER_SIZE
    ensures var k := |f.value| + |f.end|;
      Valued(RunFrom(Running(p, None, ev, n), f.value + f.end), p, Effect(c, f),
             ev + [Data(HeaderValueText, f.value)], n + k, p.nread + k)
  {
    hide *;
    AllowedParts(f, c.lenient);
    NameStates(f.name);
    OneThing(f);
    EffectIs(Core(p), c, f);
    WithState(p);
    if Spells(f.name, NAME) {
      LengthRuns(p, f, ev, n);
    } else if f.value == [] {
      assert f.value + f.end == f.end;
      NoWordAfter(f.name);
      NoValue(p, f.end, ev, n);
    } else if Spells(f.name, TRANSFER) {
      ListRuns(p, Codings, f.value, f.end, ev, n);
    } else if IsConnection(f.name) {
      ListRuns(p, Options, f.value, f.end, ev, n);
    } else {
      SomeValue(p, f.value, f.end, ev, n);
    }
  }

  lemma WithState(p: Parser)
    ensures NameFor(Codings) == TransferEncoding && NameFor(Options) == Connection
    ensures Core(p).flags == p.flags && Core(p).contentLength == p.contentLength
  {
  }

  lemma NoWordAfter(name: Bytes)
    requires name != [] && !Spells(name, NAME)
    ensures NoWord(StateOf(name))
  {
    NameStates(name);
    hide Spells, StateOf, PlainName;
  }

  lemma AllowedParts(f: Field, lenient: bool)
    requires Allowed(f, lenient)
    ensures f.name != [] && LineEnd(f.end)
    ensures if Spells(f.name, NAME) then IsLength(f) && LengthOf(f) <= MAX_LENGTH
      else f.value == [] || IsValue(f.value, lenient && !Spells(f.name, TRANSFER) && !IsConnection(f.name))
    ensures IsLength(f) ==> Spells(f.name, NAME)
  {
    hide Spells, Leading, LineEnd, IsValue, Figures;
  }

  /** The value of a field that lists codings or options. */
  lemma ListRuns(p: Parser, kind: ListKind, value: Bytes, end: Bytes, ev: seq<Event>, n: nat)
    requires p.state == AroundValue(HeaderValueDiscardWs) && p.headerState == NameFor(kind) && IsValue(value, false)
    requires LineEnd(end) && p.nread + |value| + |end| <= MAX_HEADER_SIZE
    ensures var k := |value| + |end|;
      Valued(RunFrom(Running(p, None, ev, n), value + end), p, ListEffect(Core(p), kind, Items(value)),
             ev + [Data(HeaderValueText, value)], n + k, p.nread + k)
  {
    hide *;
    ItemsAreList(value);
    ValueInner(value);
    var y := ListRead(p, ev, n, kind, Items(value), |end|);
    ReadsRun(p, ev, n, value, y);
    ThenEnd(Running(p, None, ev, n), y, value, end, ev, n + |value|);
    IsValued(p, EndOfLine(y, |end|), ev + [Data(HeaderValueText, value)], n + |value| + |end|);
  }

  lemma ReadsRun(p: Parser, ev: seq<Event>, n: nat, told: Bytes, x: Parser)
    requires Reads(p, ev, n, told, x)
    ensures RunFrom(Running(p, None, ev, n), told) == Running(x, Some(Piece(HeaderValueText, told)), ev, n + |told|)
    ensures x.state == HeaderValue && x.nread == p.nread + |told|
  {
    hide RunFrom;
  }

  /** What the parser does for each kind of field is its effect. */
  lemma EffectIs(d: Parser, c: Parser, f: Field)
    requires f.name != [] && d == Noted(c, NamesCoding(f.name))
    ensures IsLength(f) ==>
      d.(flags := d.flags.(contentLength := true), contentLength := LengthOf(f)) == Effect(c, f)
    ensures !IsLength(f) && f.value == [] ==> d == Effect(c, f)
    ensures Spells(f.name, TRANSFER) && f.value != [] ==> ListEffect(d, Codings, Items(f.value)) == Effect(c, f)
    ensures IsConnection(f.name) && f.value != [] ==> ListEffect(d, Options, Items(f.value)) == Effect(c, f)
    ensures !IsLength(f) && !Spells(f.name, TRANSFER) && !IsConnection(f.name) ==>
      d.(flags := d.flags.(upgrade := d.flags.upgrade || SaysUpgrade(f))) == Effect(c, f)
  {
    OneThing(f);
    NameStates(f.name);
    hide NamesCoding, EndsChunked, SomeSays, SaysUpgrade, IsLength, LengthOf, Spells, IsConnection, Items, StateOf;
  }

  /** One field after another: what they say takes effect, and they are told. */
  ghost predicate Fielded(r: Run, c: Parser, ev: seq<Event>, n: nat, nread: nat) {
    && r.Running? && r == Running(r.p, None, r.events, n)
    && Ready(r.p) && r.p.nread == nread && Core(Settle(r.p)) == c && r.events + Due(r.p) == ev
  }

  lemma FieldRuns(q: Parser, f: Field, ev: seq<Event>, n: nat)
    requires Ready(q) && Allowed(f, q.lenient) && q.nread + |FieldText(f)| <= MAX_HEADER_SIZE
    requires IsLength(f) ==> !q.flags.contentLength
    ensures var k := |FieldText(f)|;
      Fielded(RunFrom(Running(q, None, ev, n), FieldText(f)), Effect(Core(Settle(q)), f),
              ev + Due(q) + FieldEvents(f), n + k, q.nread + k)
  {
    hide RunFrom, StateOf, NamesCoding, Settle, Due, Effect, IsLength, Ready, Spells, IsConnection, IsName, Leading,
         LineEnd, LengthOf, IsValue;
    var head := f.name + [COLON] + f.lead;
    RunSplit(Running(q, None, ev, n), head, f.value + f.end);
    HeadRuns(q, f, ev, n);
    var r := RunFrom(Running(q, None, ev, n), head);
    SettleKeeps(q);
    var ev1 := ev + Due(q) + [Data(HeaderFieldText, f.name)];
    ValueRuns(r.p, Core(Settle(q)), f, ev1, n + |head|);
    assert ev1 + [Data(HeaderValueText, f.value)] == ev + Due(q) + FieldEvents(f);
  }

  lemma SettleKeeps(q: Parser)
    ensures Settle(q).lenient == q.lenient && Settle(q).flags.contentLength == q.flags.contentLength &&
            Settle(q).contentLength == q.contentLength && Settle(q).kind == q.kind
  {
  }

  ghost function EffectAll(c: Parser, fs: seq<Field>): Parser
    decreases |fs|
  {
    if fs == [] then c else EffectAll(Effect(c, fs[0]), fs[1..])
  }

  /** How many Content-Length fields there are. */
  ghost function Lengths(fs: seq<Field>): nat {
    if fs == [] then 0 else (if IsLength(fs[0]) then 1 else 0) + Lengths(fs[1..])
  }

  lemma EffectKeeps(c: Parser, f: Field)
    ensures var d := Effect(c, f);
      SameStart(c, d) && d.flags.contentLength == (c.flags.contentLength || IsLength(f))
  {
    hide SaysChunked, SaysOption, SaysUpgrade, IsLength, LengthOf, NamesCoding;
  }

  /** Fields do not change what the first line said, nor the flags that they cannot set. */
  ghost predicate SameStart(c: Parser, d: Parser) {
    && d.kind == c.kind && d.lenient == c.lenient && d.httpMajor == c.httpMajor && d.httpMinor == c.httpMinor
    && d.statusCode == c.statusCode && d.verb == c.verb && d.upgrade == c.upgrade
    && d.flags.trailing == c.flags.trailing && d.flags.skipBody == c.flags.skipBody
  }

  lemma {:induction false} FieldsRun(r: Run, c: Parser, fs: seq<Field>, ev: seq<Event>, n: nat, nread: nat)
    requires Fielded(r, c, ev, n, nread) && AllAllowed(fs, c.lenient) && nread + |TrailerText(fs)| <= MAX_HEADER_SIZE
    requires Lengths(fs) + (if c.flags.contentLength then 1 else 0) <= 1
    ensures var k := |TrailerText(fs)|;
      Fielded(RunFrom(r, TrailerText(fs)), EffectAll(c, fs), ev + TrailerEvents(fs), n + k, nread + k)
    decreases |fs|
  {
    hide RunFrom, Allowed, FieldText, FieldEvents, Ready, Settle, Due, Effect, IsLength;
    if fs == [] {
      NothingRun(r);
      assert ev + [] == ev;
    } else {
      var f, k := fs[0], |FieldText(fs[0])|;
      RunSplit(r, FieldText(f), TrailerText(fs[1..]));
      CoreOf(r.p);
      FieldRuns(r.p, f, r.events, n);
      EffectKeeps(c, f);
      FieldsRun(RunFrom(r, FieldText(f)), Effect(c, f), fs[1..], ev + FieldEvents(f), n + k, nread + k);
      assert ev + FieldEvents(f) + TrailerEvents(fs[1..]) == ev + (FieldEvents(f) + TrailerEvents(fs[1..]));
    }
  }

  lemma CoreOf(q: Parser)
    ensures Core(Settle(q)).lenient == q.lenient && Core(Settle(q)).flags.contentLength == q.flags.contentLength
  {
  }
}
