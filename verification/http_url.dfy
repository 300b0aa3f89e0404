/** http_parser_parse_url: splits a URL into the fields of its bytes. */
module HttpUrl {
  import opened Bytes
  import opened Decimals
  import opened HttpTypes
  import opened HttpFields
  import C = HttpCompose

  // ----- fields come in order, each at most once

  function Rank(u: UrlState): nat {
    match u
    case UrlSpaces => 0
    case ReqSchema => 1 case ReqSchemaSlash => 2 case ReqSchemaSlashSlash => 3
    case ReqServerStart => 4 case ReqServer => 5 case ReqServerWithAt => 5
    case ReqPath => 6
    case ReqQueryStringStart => 7 case ReqQueryString => 8
    case ReqFragmentStart => 9 case ReqFragment => 10
  }

  function FieldRank(f: Field): nat {
    match f
    case Schema => 1 case Host => 5 case Path => 6 case Query => 8 case Fragment => 10 case _ => 0
  }

  lemma RankRises(u: UrlState, ch: byte)
    requires ParseUrlChar(u, ch).Some?
    ensures var v := ParseUrlChar(u, ch).value;
            Rank(u) <= Rank(v) && (OuterField(v).Some? ==> FieldRank(OuterField(v).value) == Rank(v)) &&
            (Rank(u) == Rank(v) && OuterField(v).Some? ==> OuterField(u) == OuterField(v))
  {
  }

  function HostRank(h: HostState): nat {
    match h
    case UserinfoStart => 0 case InUserinfo => 1 case HostStart => 2 case V6Start => 3 case HostName => 4
    case V6 => 4 case V6ZoneStart => 4 case V6Zone => 4 case V6End => 5 case PortStart => 6 case PortDigits => 7
  }

  // ----- the splitter

  /** Byte `j` lies in the span. */
  predicate Within(d: Span, j: nat) {
    d.off <= j < d.off + d.len
  }

  /** Which of the first bytes a span takes in that ends at `p`, grows by byte `p`, or begins there. */
  lemma Grown(was: Span, now: Span, p: nat, j: nat)
    ensures was.len == 0 ==> !Within(was, j)
    ensures was.off + was.len <= p ==> !Within(was, p)
    ensures now == Span(p, 1) && j <= p ==> (Within(now, j) <==> j == p)
    ensures now == Span(was.off, was.len + 1) && was.off + was.len == p && j <= p ==>
      (Within(now, j) <==> Within(was, j) || j == p)
  {
  }

  predicate OuterKind(f: Field) {
    f.Schema? || f.Host? || f.Path? || f.Query? || f.Fragment?
  }

  class Url {
    /** The set of UF_ bits, and field_data, which has an entry for every field. */
    var fieldSet: set<Field>
    var data: map<Field, Span>
    var port: nat

    ghost predicate Valid()
      reads `data
    {
      forall f: Field :: f in data
    }

    /** Field `f` is set and takes in byte `j`. */
    ghost predicate Covers(f: Field, j: nat)
      requires Valid()
      reads `data, `fieldSet
    {
      f in fieldSet && Within(data[f], j)
    }

    /** http_parser_url_init. */
    constructor ()
      ensures Valid() && fieldSet == {} && port == 0
    {
      fieldSet := {};
      var none := Span(0, 0);
      data := map[Schema := none, Host := none, Port := none, Path := none, Query := none, Fragment := none,
                  Userinfo := none];
      port := 0;
      new;
      forall f: Field ensures f in data {
        match f { case Schema | Host | Port | Path | Query | Fragment | Userinfo => }
      }
    }

    /** One more byte for a field that has some. */
    method Extend(f: Field)
      requires Valid() && data[f].len < 0xffff
      modifies `data
      ensures Valid() && data == old(data)[f := Span(old(data)[f].off, old(data)[f].len + 1)]
    {
      data := data[f := Span(data[f].off, (data[f].len + 1) % 0x1_0000)];
    }

    /** The spans are what the automaton makes of the first `i` bytes. */
    ghost predicate Split(s: UrlState, buf: Bytes, i: nat)
      requires i <= |buf|
      reads `data, `fieldSet
    {
      && Valid()
      && (forall f <- fieldSet :: OuterKind(f) && data[f].len > 0 && data[f].off + data[f].len <= i)
      && forall f, j :: 0 <= j < i ==> (OuterAt(s, buf, j) == Some(f) <==> Covers(f, j))
    }

    /** Byte `p` goes to field `f`: the field under way grows, or a new one begins. */
    method Place(f: Field, p: nat, continues: bool, ghost start: UrlState, buf: Bytes)
      requires p < |buf| <= 0xffff && Split(start, buf, p) && OuterAt(start, buf, p) == Some(f) && OuterKind(f)
      requires if continues then f in fieldSet && data[f].off + data[f].len == p else f !in fieldSet
      modifies `fieldSet, `data
      ensures Split(start, buf, p + 1) && fieldSet == old(fieldSet) + {f} && data[f].off + data[f].len == p + 1
    {
      hide UrlAfter, OuterAt, Within;
      ghost var was, had := data, fieldSet;
      if continues {
        Extend(f);
      } else {
        data := data[f := Span(p % 0x1_0000, 1)];
        fieldSet := fieldSet + {f};
      }
      forall g, j | 0 <= j < p + 1 ensures OuterAt(start, buf, j) == Some(g) <==> Covers(g, j) {
        if g != f { assert data[g] == was[g] && (g in fieldSet <==> g in had); }
        Grown(was[g], data[g], p, j);
      }
    }

    /** The loop of http_parser_parse_url. */
    method SplitOuter(buf: Bytes, start: UrlState) returns (ok: bool, foundAt: bool)
      requires Valid() && 0 < |buf| <= 0xffff && fieldSet == {} && OuterField(start) == None
      modifies `fieldSet, `data
      ensures Valid() && (ok <==> UrlAfter(start, buf, |buf|).Some?)
      ensures ok ==> Split(start, buf, |buf|) && (foundAt <==> FoundAt(start, buf))
    {
      hide ParseUrlChar, HostAfter, UrlAfter, OuterAt, FoundBefore;
      OuterNone(start, buf);
      var s, p := start, 0;
      var oldField: Option<Field> := None;
      foundAt := false;
      while p < |buf|
        invariant p <= |buf| && UrlAfter(start, buf, p) == Some(s) && Split(start, buf, p)
        invariant forall f <- fieldSet :: FieldRank(f) <= Rank(s)
        invariant p == 0 ==> oldField == None && fieldSet == {}
        invariant oldField.Some? ==> oldField.value in fieldSet
        invariant p > 0 && OuterField(s).Some? ==>
                    oldField == OuterField(s) &&
                    data[oldField.value].off + data[oldField.value].len == p
        invariant foundAt <==> FoundBefore(start, buf, p)
      {
        var next := ParseUrlChar(s, buf[p]);
        OuterNext(start, buf, p, s);
        if next == None {
          if UrlAfter(start, buf, |buf|).Some? {
            UrlAfterSome(start, buf, p + 1, |buf|);
          }
          return false, foundAt;
        }
        RankRises(s, buf[p]);
        var before := s;
        s := next.value;
        if s.ReqServerWithAt? {
          foundAt := true;
        }
        var field := OuterField(s);
        if field.Some? {
          Place(field.value, p, field == oldField, start, buf);
          oldField := field;
        }
        p := p + 1;
      }
      ok := true;
    }

    /** The spans within the host part, which starts at `a`, are what both automata make of
        the bytes before `p`. */
    ghost predicate HostSplit(s: UrlState, buf: Bytes, a: nat, p: nat)
      requires p <= |buf|
      reads `data, `fieldSet
    {
      && Valid() && Host in fieldSet
      && (forall f <- fieldSet :: HostKind(f) ==>
           a <= data[f].off && data[f].off + data[f].len <= p &&
           (f == Host || data[f].len > 0))
      && forall f, j :: HostKind(f) && a <= j < p ==> (FieldAt(s, buf, j) == Some(f) <==> Covers(f, j))
    }

    /** Byte `p` of the host part goes to field `f`. */
    method PlaceHost(f: Field, p: nat, continues: bool, ghost s: UrlState, buf: Bytes, ghost a: nat)
      requires a <= p < |buf| <= 0xffff && HostSplit(s, buf, a, p) && FieldAt(s, buf, p) == Some(f) && HostKind(f)
      requires continues ==> f in fieldSet && data[f].off + data[f].len == p
      requires !continues ==> if f == Host then data[f].len == 0 else f !in fieldSet
      modifies `fieldSet, `data
      ensures HostSplit(s, buf, a, p + 1) && fieldSet == old(fieldSet) + {f} && data[f].off + data[f].len == p + 1
      ensures data[f].len > 0 && forall g :: g != f ==> data[g] == old(data)[g]
    {
      hide FieldAt, Within;
      ghost var was, had := data, fieldSet;
      if continues {
        Extend(f);
      } else {
        data := data[f := Span(p % 0x1_0000, 1)];
        fieldSet := fieldSet + {f};
      }
      forall g, j | HostKind(g) && a <= j < p + 1 ensures FieldAt(s, buf, j) == Some(g) <==> Covers(g, j) {
        if g != f { assert data[g] == was[g] && (g in fieldSet <==> g in had); }
        Grown(was[g], data[g], p, j);
      }
    }

    /** What the host state says about the fields so far. */
    ghost predicate Ready(h: HostState, p: nat)
      requires Valid()
      reads `data, `fieldSet
    {
      && (HostField(h).Some? ==>
           HostField(h).value in fieldSet &&
           data[HostField(h).value].off + data[HostField(h).value].len == p)
      && (Userinfo in fieldSet ==> HostRank(h) >= 1)
      && (Port in fieldSet ==> HostRank(h) >= 7)
      && (data[Host].len > 0 <==> HostRank(h) >= 4)
    }

    /** The switch of http_parse_host, for the byte that led from `h` to `g`. */
    method AssignHost(h: HostState, g: HostState, p: nat, ghost s: UrlState, buf: Bytes, ghost a: nat)
      requires a <= p < |buf| <= 0xffff && Valid() && HostSplit(s, buf, a, p) && Ready(h, p)
      requires HostChar(h, buf[p]) == Some(g) && FieldAt(s, buf, p) == HostField(g)
      modifies `fieldSet, `data
      ensures Valid() && HostSplit(s, buf, a, p + 1) && Ready(g, p + 1)
      ensures forall f :: !HostKind(f) ==> data[f] == old(data)[f] && (f in fieldSet <==> f in old(fieldSet))
    {
      hide FieldAt, HostChar;
      HostMoves(h, buf[p]);
      match g {
        case HostName => PlaceHost(Host, p, h == HostName, s, buf, a);
        case V6 => PlaceHost(Host, p, h == V6, s, buf, a);
        case V6ZoneStart | V6Zone => PlaceHost(Host, p, true, s, buf, a);
        case PortDigits => PlaceHost(Port, p, h == PortDigits, s, buf, a);
        case InUserinfo => PlaceHost(Userinfo, p, h == InUserinfo, s, buf, a);
        case _ =>
      }
    }

    /** http_parse_host. */
    method ParseHost(buf: Bytes, foundAt: bool, ghost s: UrlState) returns (ok: bool)
      requires 0 < |buf| <= 0xffff && Split(s, buf, |buf|) && Host in fieldSet && (foundAt <==> FoundAt(s, buf))
      modifies `fieldSet, `data
      ensures Valid()
      ensures var h := HostAfter(s, buf, HostStartOf(s, buf), |buf|); ok <==> h.Some? && HostEnds(h.value)
      ensures ok ==> HostSplit(s, buf, old(data[Host].off), old(data[Host].off + data[Host].len)) && data[Host].len > 0
      ensures forall g :: !HostKind(g) ==> data[g] == old(data)[g] && (g in fieldSet <==> g in old(fieldSet))
    {
      hide UrlAfter, OuterAt, ParseUrlChar, HostChar, HostAfter, FoundAt, FieldAt, HostEnds;
      var a, b := data[Host].off, data[Host].off + data[Host].len;
      ghost var h0 := HostStartOf(s, buf);
      assert forall j :: 0 <= j < |buf| ==> (OuterAt(s, buf, j) == Some(Host) <==> a <= j < b);
      HostSame(s, buf, h0, 0, a);
      HostNone(s, buf, h0);
      var h;
      ok, h := HostLoop(buf, a, b, foundAt, s);
      if !ok {
        return;
      }
      HostSame(s, buf, h0, b, |buf|);
      LastHigh(h);
      ok := HostEnds(h);
    }

    /** Its loop, over the host part from `a` to `b`. */
    method HostLoop(buf: Bytes, a: nat, b: nat, foundAt: bool, ghost s: UrlState) returns (ok: bool, h: HostState)
      requires a <= b <= |buf| <= 0xffff && Valid() && Host in fieldSet && Port !in fieldSet && Userinfo !in fieldSet
      requires forall j :: a <= j < b ==> OuterAt(s, buf, j) == Some(Host)
      requires (foundAt <==> FoundAt(s, buf)) && HostAfter(s, buf, HostStartOf(s, buf), a) == Some(HostStartOf(s, buf))
      modifies `fieldSet, `data
      ensures Valid()
      ensures if ok then HostAfter(s, buf, HostStartOf(s, buf), b) == Some(h) && HostSplit(s, buf, a, b) && Ready(h, b)
              else HostAfter(s, buf, HostStartOf(s, buf), |buf|) == None
      ensures forall g :: !HostKind(g) ==> data[g] == old(data)[g] && (g in fieldSet <==> g in old(fieldSet))
    {
      hide UrlAfter, OuterAt, ParseUrlChar, HostChar, HostAfter, FoundAt, FieldAt, HostEnds;
      ghost var h0 := HostStartOf(s, buf);
      ghost var data0, set0 := data, fieldSet;
      h := if foundAt then UserinfoStart else HostStart;
      BeginHost(a, h, s, buf);
      hide HostSplit, Ready, HostStartOf;
      var p := a;
      while p < b
        invariant Valid() && a <= p <= b && HostAfter(s, buf, h0, p) == Some(h) && HostSplit(s, buf, a, p)
        invariant Ready(h, p) && OthersKept(data0, set0)
      {
        var next := HostStep(buf, a, p, h, s, data0, set0);
        if next == None {
          return false, h;
        }
        h := next.value;
        p := p + 1;
      }
      ok := true;
    }

    /** The fields outside the host part are as they were. */
    ghost predicate OthersKept(data0: map<Field, Span>, set0: set<Field>)
      reads `data, `fieldSet
    {
      forall g: Field :: !HostKind(g) ==>
        g in data && g in data0 && data[g] == data0[g] && (g in fieldSet <==> g in set0)
    }

    /** The host is empty at first. */
    method BeginHost(a: nat, h: HostState, ghost s: UrlState, buf: Bytes)
      requires a <= |buf| && Valid() && Host in fieldSet && Port !in fieldSet && Userinfo !in fieldSet
      requires h.UserinfoStart? || h.HostStart?
      modifies `data
      ensures Valid() && HostSplit(s, buf, a, a) && Ready(h, a) && OthersKept(old(data), fieldSet)
    {
      data := data[Host := Span(a, 0)];
    }

    /** One turn of the loop. */
    method HostStep(buf: Bytes, a: nat, p: nat, h: HostState, ghost s: UrlState, ghost data0: map<Field, Span>,
            ghost set0: set<Field>)
      returns (next: Option<HostState>)
      requires a <= p < |buf| <= 0xffff && Valid() && OuterAt(s, buf, p) == Some(Host) && OthersKept(data0, set0)
      requires HostAfter(s, buf, HostStartOf(s, buf), p) == Some(h) && HostSplit(s, buf, a, p) && Ready(h, p)
      modifies `fieldSet, `data
      ensures Valid() && OthersKept(data0, set0)
      ensures if next.Some? then HostAfter(s, buf, HostStartOf(s, buf), p + 1) == next &&
                                 HostSplit(s, buf, a, p + 1) && Ready(next.value, p + 1)
              else HostAfter(s, buf, HostStartOf(s, buf), |buf|) == None
    {
      hide UrlAfter, OuterAt, HostChar, HostAfter, HostStartOf, FieldAt, HostSplit, Ready;
      next := HostChar(h, buf[p]);
      HostNext(s, buf, HostStartOf(s, buf), p, h);
      if next == None {
        HostRefused(s, buf, HostStartOf(s, buf), p + 1);
      } else {
        FieldIs(s, buf, p, next.value);
        AssignHost(h, next.value, p, s, buf, a);
      }
    }

    /** Every set field is in bounds and not empty, and takes in exactly its bytes. */
    ghost predicate Exact(s: UrlState, buf: Bytes)
      reads `data, `fieldSet
    {
      && Valid()
      && (forall f <- fieldSet :: data[f].len > 0 && data[f].off + data[f].len <= |buf|)
      && forall f, j :: 0 <= j < |buf| ==> (FieldAt(s, buf, j) == Some(f) <==> Covers(f, j))
    }

    /** The host part is split in turn, and all fields are exact. */
    method SplitHost(buf: Bytes, foundAt: bool, ghost s: UrlState) returns (ok: bool)
      requires 0 < |buf| <= 0xffff && Split(s, buf, |buf|) && Host in fieldSet && (foundAt <==> FoundAt(s, buf))
      modifies `fieldSet, `data
      ensures Valid()
      ensures var h := HostAfter(s, buf, HostStartOf(s, buf), |buf|); ok <==> h.Some? && HostEnds(h.value)
      ensures ok ==> Exact(s, buf)
    {
      hide UrlAfter, OuterAt, HostAfter, FieldAt, FoundAt;
      ok := ParseHost(buf, foundAt, s);
      if ok {
        forall f, j | 0 <= j < |buf| ensures FieldAt(s, buf, j) == Some(f) <==> Covers(f, j) {
          FieldKinds(s, buf, j);
        }
      }
    }

    lemma NoHost(s: UrlState, buf: Bytes)
      requires Split(s, buf, |buf|) && Host !in fieldSet
      ensures Exact(s, buf)
    {
      hide OuterAt, FieldAt;
      forall f, j | 0 <= j < |buf| ensures FieldAt(s, buf, j) == Some(f) <==> Covers(f, j) {
        FieldKinds(s, buf, j);
      }
    }

    /** Everything up to the port number. */
    method SplitAll(buf: Bytes, connect: bool) returns (ok: bool)
      requires Valid() && 0 < |buf| <= 0xffff
      modifies this
      ensures Valid() && port == 0
      ensures ok <==> WellFormedUrl(buf, connect)
      ensures ok ==> Exact(StartOf(connect), buf)
    {
      hide UrlAfter, OuterAt, HostAfter, FieldAt, FoundAt, Split, Exact;
      port, fieldSet := 0, {};
      var s := StartOf(connect);
      var foundAt;
      ok, foundAt := SplitOuter(buf, s);
      if !ok {
        return;
      }
      OuterHas(s, buf, Schema);
      OuterHas(s, buf, Host);
      if Schema in fieldSet && Host !in fieldSet {
        return false;
      }
      if Host in fieldSet {
        ok := SplitHost(buf, foundAt, s);
        if !ok {
          return;
        }
      } else {
        NoHost(s, buf);
      }
      ExactHas(s, buf);
      if connect && fieldSet != {Host, Port} {
        return false;
      }
    }

    lemma ExactBounds(s: UrlState, buf: Bytes)
      requires Exact(s, buf)
      ensures forall f <- fieldSet :: data[f].len > 0 && data[f].off + data[f].len <= |buf|
    {
    }

    lemma OuterHas(s: UrlState, buf: Bytes, f: Field)
      requires Split(s, buf, |buf|)
      ensures HasOuter(s, buf, f) <==> f in fieldSet
    {
      hide OuterAt;
      if f in fieldSet { assert OuterAt(s, buf, data[f].off) == Some(f); }
    }

    lemma ExactHas(s: UrlState, buf: Bytes)
      requires Exact(s, buf)
      ensures forall f :: Has(s, buf, f) <==> f in fieldSet
    {
      hide FieldAt;
      forall f | f in fieldSet ensures Has(s, buf, f) {
        assert FieldAt(s, buf, data[f].off) == Some(f);
      }
    }

    /** The fields that are set are the parts that are not empty, each with its bytes in its
        place, and the port is the number its digits write. */
    ghost predicate Holds(p: C.Parts)
      requires Valid() && AllDigits(C.Part(p, Port))
      reads `data, `fieldSet, `port
    {
      && (forall f :: f in fieldSet <==> C.Part(p, f) != [])
      && (forall f <- fieldSet :: data[f] == Span(|C.TextBefore(p, f)|, |C.Part(p, f)|) && FieldText(p, f))
      && port == Numeral(0, C.Part(p, Port))
    }

    /** The bytes of the field are the part. */
    ghost predicate FieldText(p: C.Parts, f: Field)
      requires Valid()
      reads `data, `fieldSet
    {
      var d := data[f];
      d.off + d.len <= |C.Written(p)| && C.Written(p)[d.off..d.off + d.len] == C.Part(p, f)
    }

    /** Exact fields are the parts. */
    lemma ExactIsPart(p: C.Parts, connect: bool, f: Field)
      requires C.Formed(p, connect) && Exact(StartOf(connect), C.Written(p))
      ensures f in fieldSet <==> C.Part(p, f) != []
      ensures f in fieldSet ==> data[f] == Span(|C.TextBefore(p, f)|, |C.Part(p, f)|) && FieldText(p, f)
    {
      hide FieldAt, C.Formed, C.Part, C.Written, C.TextBefore, Exact;
      C.FieldSpan(p, connect, f);
      ExactIsValid(StartOf(connect), C.Written(p));
      ExactSpan(StartOf(connect), C.Written(p), f, |C.TextBefore(p, f)|, |C.Part(p, f)|);
    }

    /** A field whose bytes are a stretch of the text has that span. */
    lemma ExactSpan(s: UrlState, buf: Bytes, f: Field, off: nat, n: nat)
      requires Exact(s, buf) && off + n <= |buf|
      requires forall j :: 0 <= j < |buf| ==> (FieldAt(s, buf, j) == Some(f) <==> off <= j < off + n)
      ensures f in fieldSet <==> n > 0
      ensures f in fieldSet ==> data[f] == Span(off, n)
    {
      hide FieldAt;
      assert forall j :: 0 <= j < |buf| ==> (Covers(f, j) <==> off <= j < off + n);
      assert n > 0 ==> Covers(f, off) && Covers(f, off + n - 1);
      if f in fieldSet {
        var d := data[f];
        assert Covers(f, d.off) && Covers(f, d.off + d.len - 1);
      }
    }

    /** The value of the port's digits is that of the part's. */
    lemma PortIsPart(p: C.Parts, connect: bool)
      requires C.Formed(p, connect) && Exact(StartOf(connect), C.Written(p))
      ensures AllDigits(C.Part(p, Port))
      ensures (if Port in fieldSet then PortValue(C.Written(p)) else 0) == Numeral(0, C.Part(p, Port))
    {
      hide *;
      C.PortIsDigits(p, connect);
      ExactIsValid(StartOf(connect), C.Written(p));
      ExactIsPart(p, connect, Port);
      NothingIsZero();
      if Port in fieldSet { PortText(p); }
    }

    lemma ExactIsValid(s: UrlState, buf: Bytes)
      requires Exact(s, buf)
      ensures Valid()
    {
    }

    lemma PortText(p: C.Parts)
      requires Valid() && FieldText(p, Port) && AllDigits(C.Part(p, Port))
      ensures PortValue(C.Written(p)) == Numeral(0, C.Part(p, Port))
    {
      hide C.Part, C.Written, AllDigits, Numeral;
    }

    /** What the contract of http_parser_parse_url says of the parts a URL was written from. */
    lemma SplitsParts(buf: Bytes, connect: bool, ok: bool)
      requires Valid() && (WellFormedUrl(buf, connect) ==> Exact(StartOf(connect), buf))
      requires WellFormedUrl(buf, connect) ==> (ok <==> Port !in fieldSet || PortValue(buf) <= 0xffff)
      requires ok ==> WellFormedUrl(buf, connect) && port == if Port in fieldSet then PortValue(buf) else 0
      ensures ok ==> exists p :: C.Proper(p, connect) && C.Written(p) == buf
      ensures forall p :: C.Proper(p, connect) && C.Written(p) == buf ==>
                AllDigits(C.Part(p, Port)) && (ok <==> Numeral(0, C.Part(p, Port)) <= 0xffff) && (ok ==> Holds(p))
    {
      hide FieldAt, C.Formed, C.Part, C.Written, C.TextBefore, WellFormedUrl, Exact, PortValue;
      C.WellFormedIsWritten(buf, connect);
      forall p | C.Proper(p, connect) && C.Written(p) == buf
        ensures AllDigits(C.Part(p, Port)) && (ok <==> Numeral(0, C.Part(p, Port)) <= 0xffff) && (ok ==> Holds(p))
      {
        C.WrittenIsWellFormed(p, connect);
        PortIsPart(p, connect);
        forall f
          ensures f in fieldSet <==> C.Part(p, f) != []
          ensures f in fieldSet ==> data[f] == Span(|C.TextBefore(p, f)|, |C.Part(p, f)|) && FieldText(p, f)
        {
          ExactIsPart(p, connect, f);
        }
      }
    }

    /** http_parser_parse_url. It succeeds exactly on the texts written from proper parts with a
        port number of at most 65535, and then holds just these parts. So the fields are pairwise
        disjoint, and every byte outside all of them is a delimiter. */
    method Parse(buf: Bytes, connect: bool) returns (ok: bool)
      requires Valid() && |buf| <= 0xffff
      modifies this
      ensures Valid()
      ensures ok ==> exists p :: C.Proper(p, connect) && C.Written(p) == buf
      ensures forall p :: C.Proper(p, connect) && C.Written(p) == buf ==>
                AllDigits(C.Part(p, Port)) && (ok <==> Numeral(0, C.Part(p, Port)) <= 0xffff) && (ok ==> Holds(p))
      ensures ok ==> forall f, g :: f in fieldSet && g in fieldSet && f != g ==>
                data[f].off + data[f].len <= data[g].off || data[g].off + data[g].len <= data[f].off
      ensures ok ==> forall i :: 0 <= i < |buf| && (forall f <- fieldSet :: !Covers(f, i)) ==> Delimiter(buf[i])
    {
      hide WellFormedUrl, FieldAt, Exact, Delimiter, Holds, PortValue, C.Proper, C.Written, C.Part;
      NeverEmpty(connect);
      if buf == [] {
        SplitsParts(buf, connect, false);
        return false;
      }
      ok := SplitAll(buf, connect);
      if !ok {
        SplitsParts(buf, connect, false);
        return;
      }
      ghost var s := StartOf(connect);
      ExactBounds(s, buf);
      if Port in fieldSet {
        PortDigitsOnly(s, buf);
        ok := ReadPort(buf);
        if !ok {
          SplitsParts(buf, connect, false);
          return;
        }
      }
      SplitsParts(buf, connect, true);
      Apart(s, buf);
      Outside(buf, connect);
    }

    lemma Outside(buf: Bytes, connect: bool)
      requires WellFormedUrl(buf, connect) && Exact(StartOf(connect), buf)
      ensures forall i :: 0 <= i < |buf| && (forall f <- fieldSet :: !Covers(f, i)) ==> Delimiter(buf[i])
    {
      hide FieldAt, WellFormedUrl, Delimiter;
      var s := StartOf(connect);
      forall i | 0 <= i < |buf| && (forall f <- fieldSet :: !Covers(f, i)) ensures Delimiter(buf[i]) {
        assert forall f :: FieldAt(s, buf, i) == Some(f) ==> Covers(f, i);
        RestIsDelimiters(buf, connect, i);
      }
    }

    /** The port number, given up as soon as it is past 65535. */
    method ReadPort(buf: Bytes) returns (ok: bool)
      requires Valid() && data[Port].off + data[Port].len <= |buf|
      requires AllDigits(buf[data[Port].off..data[Port].off + data[Port].len])
      modifies `port
      ensures ok <==> PortValue(buf) <= 0xffff
      ensures ok ==> port == PortValue(buf)
    {
      hide AllDigits, Numeral, PortValue;
      var off, len := data[Port].off, data[Port].len;
      ghost var text := buf[off..off + len];
      PortValueIs(buf);
      NothingIsZero();
      var v: nat, p: nat := 0, off;
      while p < off + len
        modifies {}
        invariant off <= p <= off + len && AllDigits(text[..p - off]) && v == Numeral(0, text[..p - off]) <= 0xffff
      {
        assert text[..p + 1 - off] == text[..p - off] + [buf[p]] && buf[p] == text[p - off];
        PrefixDigits(text, p - off);
        NumeralAppend(0, text[..p - off], buf[p]);
        v := v * 10 + (buf[p] - 48);
        if v > 0xffff {
          NumeralGrows(text, p + 1 - off);
          return false;
        }
        p := p + 1;
      }
      assert text[..len] == text;
      port := v % 0x1_0000;
      ok := true;
    }

    lemma PortValueIs(buf: Bytes)
      requires Valid() && data[Port].off + data[Port].len <= |buf|
      requires AllDigits(buf[data[Port].off..data[Port].off + data[Port].len])
      ensures PortValue(buf) == Numeral(0, buf[data[Port].off..data[Port].off + data[Port].len])
    {
      hide AllDigits, Numeral;
    }

    /** The value of the port's digits. */
    ghost function PortValue(buf: Bytes): nat
      requires Valid()
      reads `data, `fieldSet
    {
      var d := data[Port];
      if d.off + d.len <= |buf| && AllDigits(buf[d.off..d.off + d.len]) then Numeral(0, buf[d.off..d.off + d.len])
        else 0
    }

    lemma PortDigitsOnly(s: UrlState, buf: Bytes)
      requires Exact(s, buf) && Port in fieldSet
      ensures AllDigits(buf[data[Port].off..data[Port].off + data[Port].len])
    {
      hide FieldAt;
      var off, text := data[Port].off, buf[data[Port].off..data[Port].off + data[Port].len];
      forall k | 0 <= k < |text| ensures IsDigit(text[k]) {
        assert FieldAt(s, buf, off + k) == Some(Port);
        PortIsDigit(s, buf, off + k);
      }
    }

    lemma Apart(s: UrlState, buf: Bytes)
      requires Exact(s, buf)
      ensures forall f, g :: f in fieldSet && g in fieldSet && f != g ==>
                data[f].off + data[f].len <= data[g].off || data[g].off + data[g].len <= data[f].off
    {
      hide FieldAt;
      forall f, g | f in fieldSet && g in fieldSet && f != g
        ensures data[f].off + data[f].len <= data[g].off || data[g].off + data[g].len <= data[f].off
      {
        var j := if data[f].off < data[g].off then data[g].off else data[f].off;
        assert Covers(f, j) ==> FieldAt(s, buf, j) == Some(f);
        assert Covers(g, j) ==> FieldAt(s, buf, j) == Some(g);
      }
    }
  }

  /** Inside the host part a byte's field is one of three; outside it is the outer field. */
  lemma FieldKinds(s: UrlState, buf: Bytes, j: nat)
    requires j < |buf|
    ensures OuterAt(s, buf, j) == Some(Host) ==> FieldAt(s, buf, j).None? || HostKind(FieldAt(s, buf, j).value)
    ensures OuterAt(s, buf, j) != Some(Host) ==> FieldAt(s, buf, j) == OuterAt(s, buf, j)
    ensures OuterAt(s, buf, j).Some? ==> OuterKind(OuterAt(s, buf, j).value)
  {
  }

  lemma PortIsDigit(s: UrlState, buf: Bytes, j: nat)
    requires j < |buf| && FieldAt(s, buf, j) == Some(Port)
    ensures IsDigit(buf[j])
  {
    hide UrlAfter, OuterAt, FoundAt, HostChar;
    FieldKinds(s, buf, j);
    var h := HostStartOf(s, buf);
    assert HostAfter(s, buf, h, j + 1) == Some(PortDigits);
    HostAfterSome(s, buf, h, j, j + 1);
    LastIsDigit(HostAfter(s, buf, h, j).value, buf[j]);
  }

  lemma LastIsDigit(h: HostState, ch: byte)
    ensures HostChar(h, ch) == Some(PortDigits) ==> IsDigit(ch)
  {
  }

  lemma {:induction false} NumeralGrows(text: Bytes, k: nat)
    requires k <= |text| && AllDigits(text)
    ensures Numeral(0, text[..k]) <= Numeral(0, text)
    decreases |text| - k
  {
    if k < |text| {
      assert text[..k + 1] == text[..k] + [text[k]];
      NumeralAppend(0, text[..k], text[k]);
      NumeralGrows(text, k + 1);
    } else {
      assert text[..k] == text;
    }
  }

  /** No byte read. */
  lemma OuterNone(start: UrlState, buf: Bytes)
    ensures UrlAfter(start, buf, 0) == Some(start) && !FoundBefore(start, buf, 0)
  {
  }

  /** One byte more. */
  lemma OuterNext(start: UrlState, buf: Bytes, p: nat, s: UrlState)
    requires p < |buf| && UrlAfter(start, buf, p) == Some(s)
    ensures var next := ParseUrlChar(s, buf[p]);
      UrlAfter(start, buf, p + 1) == next &&
      OuterAt(start, buf, p) == (if next.Some? then OuterField(next.value) else None) &&
      (FoundBefore(start, buf, p + 1) <==> next == Some(ReqServerWithAt) || FoundBefore(start, buf, p))
  {
    hide ParseUrlChar;
  }

  lemma PrefixDigits(text: Bytes, k: nat)
    requires AllDigits(text) && k < |text|
    ensures AllDigits(text[..k]) && IsDigit(text[k])
  {
  }

  lemma NothingIsZero()
    ensures AllDigits([]) && Numeral(0, []) == 0
  {
  }

  lemma NeverEmpty(connect: bool)
    ensures !WellFormedUrl([], connect)
  {
  }

  lemma LastHigh(h: HostState)
    ensures HostEnds(h) ==> HostRank(h) >= 4
  {
  }

  lemma FieldIs(s: UrlState, buf: Bytes, p: nat, g: HostState)
    requires p < |buf| && OuterAt(s, buf, p) == Some(Host) && HostAfter(s, buf, HostStartOf(s, buf), p + 1) == Some(g)
    ensures FieldAt(s, buf, p) == HostField(g)
  {
    hide OuterAt, HostAfter;
  }

  predicate HostKind(f: Field) {
    f.Host? || f.Port? || f.Userinfo?
  }





  lemma HostMoves(h: HostState, ch: byte)
    requires HostChar(h, ch).Some?
    ensures var g := HostChar(h, ch).value;
            && HostRank(h) <= HostRank(g)
            && (g.HostName? && !h.HostName? ==> HostRank(h) < 4) && (g.V6? && !h.V6? ==> HostRank(h) < 4)
            && (g.V6ZoneStart? || g.V6Zone? ==> HostField(h) == Some(Host))
            && (g.PortDigits? && !h.PortDigits? ==> HostRank(h) < 7) &&
                 (g.InUserinfo? && !h.InUserinfo? ==> HostRank(h) < 1)
            && (HostRank(g) == 4 <==> HostField(g) == Some(Host)) && (HostRank(h) < 4 && HostRank(g) > 4 ==> false)
  {
  }
}
