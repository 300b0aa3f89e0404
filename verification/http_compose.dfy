/** What a URL is: parts put together. Splitting gives back exactly the parts. */
module HttpCompose {
  import opened Bytes
  import opened Decimals
  import opened HttpTypes
  import opened HttpFields

  // ----- the characters of each part

  predicate Letter(c: byte) {
    65 <= c <= 90 || 97 <= c <= 122
  }

  predicate LetterOrDigit(c: byte) {
    Letter(c) || 48 <= c <= 57
  }

  /** Letters, digits, and -_.!~*'() and %;:&=+$, as well. */
  predicate UserinfoByte(c: byte) {
    LetterOrDigit(c) || c in {45, 95, 46, 33, 126, 42, 39, 40, 41, 37, 59, 58, 38, 61, 43, 36, 44}
  }

  predicate NameByte(c: byte) {
    LetterOrDigit(c) || c == DOT || c == MINUS
  }

  predicate AddressByte(c: byte) {
    48 <= c <= 57 || 65 <= c <= 70 || 97 <= c <= 102 || c == COLON || c == DOT
  }

  /** Letters, digits, and %.-_~ */
  predicate ZoneByte(c: byte) {
    LetterOrDigit(c) || c in {37, 46, 45, 95, 126}
  }

  /** Visible ASCII, without # and ? in a path, and without # in a query. */
  predicate PathByte(c: byte) {
    33 <= c <= 126 && c != 35 && c != 63
  }

  predicate QueryByte(c: byte) {
    33 <= c <= 126 && c != 35
  }

  predicate FragmentByte(c: byte) {
    33 <= c <= 126
  }

  ghost predicate All(kind: byte -> bool, s: Bytes) {
    forall k :: 0 <= k < |s| ==> kind(s[k])
  }

  // ----- the parts

  /** A name or an IPv4 address; or an IPv6 address in brackets, perhaps with a zone. */
  datatype HostText = Name(name: Bytes) | Bracketed(address: Bytes, zone: Option<Bytes>)

  datatype Server = Server(userinfo: Option<Bytes>, host: HostText, port: Option<Bytes>)

  datatype Parts = Parts(schema: Option<Bytes>, server: Option<Server>, path: Bytes, query: Option<Bytes>,
                         fragment: Option<Bytes>)

  function OrNothing(part: Option<Bytes>): Bytes {
    if part.Some? then part.value else []
  }

  /** The part with the mark before it, if it is there. */
  function Marked(mark: Bytes, part: Option<Bytes>): Bytes {
    if part.Some? then mark + part.value else []
  }

  function HostBytes(h: HostText): Bytes {
    match h
    case Name(name) => name
    case Bracketed(address, zone) => address + Marked([37], zone)
  }

  function HostWritten(h: HostText): Bytes {
    if h.Name? then h.name else [91] + HostBytes(h) + [93]
  }

  function ServerWritten(v: Server): Bytes {
    (if v.userinfo.Some? then v.userinfo.value + [64] else []) + HostWritten(v.host) + Marked([COLON], v.port)
  }

  /** Schema `://` userinfo `@` host `:` port path `?` query `#` fragment. */
  function Written(p: Parts): Bytes {
    (if p.schema.Some? then p.schema.value + [COLON, 47, 47] else []) +
    (if p.server.Some? then ServerWritten(p.server.value) else []) +
    Tail(p)
  }

  /** Path `?` query `#` fragment. */
  function Tail(p: Parts): Bytes {
    p.path + Marked([63], p.query) + Marked([35], p.fragment)
  }

  function Hashes(s: Bytes): (n: nat)
    ensures n <= |s| && (forall k :: 0 <= k < n ==> s[k] == 35) && (n < |s| ==> s[n] != 35)
  {
    if s != [] && s[0] == 35 then 1 + Hashes(s[1..]) else 0
  }

  /** The bytes of a field. A fragment that begins with # is told without that. */
  function Part(p: Parts, f: Field): Bytes {
    match f
    case Schema => OrNothing(p.schema)
    case Userinfo => if p.server.Some? then OrNothing(p.server.value.userinfo) else []
    case Host => if p.server.Some? then HostBytes(p.server.value.host) else []
    case Port => if p.server.Some? then OrNothing(p.server.value.port) else []
    case Path => p.path
    case Query => OrNothing(p.query)
    case Fragment => OrNothing(p.fragment)[Hashes(OrNothing(p.fragment))..]
  }

  ghost predicate ProperHost(h: HostText) {
    match h
    case Name(name) => name != [] && All(NameByte, name)
    case Bracketed(address, zone) =>
      address != [] && All(AddressByte, address) && (zone.Some? ==> zone.value != [] && All(ZoneByte, zone.value))
  }

  ghost predicate ProperServer(v: Server) {
    && All(UserinfoByte, OrNothing(v.userinfo)) && ProperHost(v.host)
    && (v.port.Some? ==> v.port.value != [] && AllDigits(v.port.value))
  }

  /** Path, query and fragment: a path after a server starts with a slash, one alone may be an
      asterisk; after a server a fragment needs a path or a query before it. */
  ghost predicate ProperTail(p: Parts) {
    && All(PathByte, p.path) && All(QueryByte, OrNothing(p.query)) && All(FragmentByte, OrNothing(p.fragment))
    && (p.path != [] ==> p.path[0] == 47 || (p.path[0] == 42 && p.server.None?))
    && (p.server.None? ==> p.path != [])
    && (p.path == [] && p.query.None? ==> p.fragment.None?)
  }

  /** A schema comes with a server; the target of CONNECT has a server and no schema. */
  ghost predicate Formed(p: Parts, connect: bool) {
    && ProperTail(p)
    && (p.server.Some? ==> ProperServer(p.server.value))
    && if connect then p.schema.None? && p.server.Some?
       else (p.schema.Some? <==> p.server.Some?) &&
            (p.schema.Some? ==> p.schema.value != [] && All(Letter, p.schema.value))
  }

  /** The parts of a URL. The only fields of the target of CONNECT are host and port. */
  ghost predicate Proper(p: Parts, connect: bool) {
    Formed(p, connect) && (connect ==> forall f :: Part(p, f) != [] <==> f == Host || f == Port)
  }

  // ----- the pieces of the text

  /** A stretch of text and the field that it belongs to, if any. */
  datatype Piece = Piece(field: Option<Field>, text: Bytes)

  function If(b: bool, text: Bytes): Bytes {
    if b then text else []
  }

  function ServerPieces(p: Parts): seq<Piece> {
    var at := p.server.Some? && p.server.value.userinfo.Some?;
    var bracketed := p.server.Some? && p.server.value.host.Bracketed?;
    [Piece(Some(Userinfo), Part(p, Userinfo)), Piece(None, If(at, [64])), Piece(None, If(bracketed, [91])),
     Piece(Some(Host), Part(p, Host)), Piece(None, If(bracketed, [93])),
     Piece(None, If(p.server.Some? && p.server.value.port.Some?, [COLON])), Piece(Some(Port), Part(p, Port))]
  }

  /** The mark of a fragment and those that begin it. */
  function FragmentMark(p: Parts): Bytes {
    If(p.fragment.Some?, [35]) + OrNothing(p.fragment)[..Hashes(OrNothing(p.fragment))]
  }

  function TailPieces(p: Parts): seq<Piece> {
    [Piece(Some(Path), p.path), Piece(None, If(p.query.Some?, [63])), Piece(Some(Query), Part(p, Query)),
     Piece(None, FragmentMark(p)), Piece(Some(Fragment), Part(p, Fragment))]
  }

  function Pieces(p: Parts): (r: seq<Piece>)
    ensures |r| == 14
  {
    [Piece(Some(Schema), Part(p, Schema)), Piece(None, If(p.schema.Some?, [COLON, 47, 47]))] + ServerPieces(p) +
    TailPieces(p)
  }

  /** A field's piece. */
  function PlaceOf(f: Field): nat {
    match f
    case Schema => 0 case Userinfo => 2 case Host => 5 case Port => 8 case Path => 9 case Query => 11
    case Fragment => 13
  }

  function TextOf(ps: seq<Piece>): Bytes {
    if ps == [] then [] else ps[0].text + TextOf(ps[1..])
  }

  function Repeat(field: Option<Field>, n: nat): (r: seq<Option<Field>>)
    ensures |r| == n && forall k :: 0 <= k < n ==> r[k] == field
  {
    seq(n, i => field)
  }

  function Labels(ps: seq<Piece>): (r: seq<Option<Field>>)
    ensures |r| == |TextOf(ps)|
  {
    if ps == [] then [] else Repeat(ps[0].field, |ps[0].text|) + Labels(ps[1..])
  }

  lemma {:induction false} TextMore(ps: seq<Piece>, qs: seq<Piece>)
    ensures TextOf(ps + qs) == TextOf(ps) + TextOf(qs) && Labels(ps + qs) == Labels(ps) + Labels(qs)
  {
    if ps == [] {
      assert ps + qs == qs;
    } else {
      TextMore(ps[1..], qs);
      assert (ps + qs)[1..] == ps[1..] + qs;
      hide TextOf, Labels, Repeat;
      Regroup(ps[0].text, TextOf(ps[1..]), TextOf(qs));
      Regroup(Repeat(ps[0].field, |ps[0].text|), Labels(ps[1..]), Labels(qs));
    }
  }

  lemma Regroup<T>(a: seq<T>, b: seq<T>, c: seq<T>)
    ensures a + (b + c) == a + b + c
  {
  }

  /** A piece lies where those before it end. */
  lemma PieceAt(ps: seq<Piece>, k: nat)
    requires k < |ps|
    ensures var off, n := |TextOf(ps[..k])|, |ps[k].text|;
      off + n <= |TextOf(ps)| && TextOf(ps)[off..off + n] == ps[k].text &&
      (forall j :: off <= j < off + n ==> Labels(ps)[j] == ps[k].field) &&
      Labels(ps)[..off] == Labels(ps[..k]) && Labels(ps)[off + n..] == Labels(ps[k + 1..])
  {
    var a, b := ps[..k], ps[k + 1..];
    assert ps == a + ([ps[k]] + b);
    TextMore(a, [ps[k]] + b);
    TextMore([ps[k]], b);
    assert TextOf([ps[k]]) == ps[k].text && Labels([ps[k]]) == Repeat(ps[k].field, |ps[k].text|);
  }

  lemma {:induction false} OtherLabels(ps: seq<Piece>, field: Option<Field>)
    requires forall k :: 0 <= k < |ps| ==> ps[k].field != field
    ensures forall j :: 0 <= j < |Labels(ps)| ==> Labels(ps)[j] != field
  {
    if ps != [] { OtherLabels(ps[1..], field); }
  }

  // ----- runs of an automaton over a stretch of text

  /** The state after the text; None once a byte was refused. */
  ghost function Run<S>(step: (S, byte) -> Option<S>, u: Option<S>, t: Bytes): Option<S>
    decreases |t|
  {
    if t == [] then u else if u.None? then None else Run(step, step(u.value, t[0]), t[1..])
  }

  /** The field of each byte, by the state it led to. */
  ghost function Marks<S>(step: (S, byte) -> Option<S>, field: S -> Option<Field>, u: Option<S>, t: Bytes)
    : (r: seq<Option<Field>>)
    ensures |r| == |t|
    decreases |t|
  {
    if t == [] then [] else
    var v := if u.None? then None else step(u.value, t[0]);
    [if v.None? then None else field(v.value)] + Marks(step, field, v, t[1..])
  }

  lemma {:induction false} RunMore<S>(step: (S, byte) -> Option<S>, field: S -> Option<Field>, u: Option<S>,
      x: Bytes, y: Bytes)
    ensures Run(step, u, x + y) == Run(step, Run(step, u, x), y)
    ensures Marks(step, field, u, x + y) == Marks(step, field, u, x) + Marks(step, field, Run(step, u, x), y)
    decreases |x|
  {
    if x == [] {
      assert x + y == y;
    } else {
      assert (x + y)[1..] == x[1..] + y;
      var v := if u.None? then None else step(u.value, x[0]);
      RunMore(step, field, v, x[1..], y);
      if u.None? { Refused(step, x[1..] + y); Refused(step, x[1..]); Refused(step, y); }
    }
  }

  lemma {:induction false} Refused<S>(step: (S, byte) -> Option<S>, t: Bytes)
    ensures Run(step, None, t) == None
  {
  }

  /** Bytes that all lead from a state to itself. */
  lemma {:induction false} Stays<S>(step: (S, byte) -> Option<S>, field: S -> Option<Field>, u: S, t: Bytes)
    requires forall k :: 0 <= k < |t| ==> step(u, t[k]) == Some(u)
    ensures Run(step, Some(u), t) == Some(u) && Marks(step, field, Some(u), t) == Repeat(field(u), |t|)
    decreases |t|
  {
    if t != [] { Stays(step, field, u, t[1..]); }
  }

  /** A first byte that leads to a state, and others that stay there. */
  lemma {:induction false} Enters<S>(step: (S, byte) -> Option<S>, field: S -> Option<Field>, u: S, v: S,
      t: Bytes)
    requires t != [] && step(u, t[0]) == Some(v) && forall k :: 0 < k < |t| ==> step(v, t[k]) == Some(v)
    ensures Run(step, Some(u), t) == Some(v) && Marks(step, field, Some(u), t) == Repeat(field(v), |t|)
  {
    Stays(step, field, v, t[1..]);
  }

  lemma One<S>(step: (S, byte) -> Option<S>, field: S -> Option<Field>, u: S, c: byte)
    requires step(u, c).Some?
    ensures Run(step, Some(u), [c]) == step(u, c) && Marks(step, field, Some(u), [c]) == [field(step(u, c).value)]
  {
    assert [c][1..] == [];
  }

  /** The automaton walks the pieces from one state to another, and its marks are their fields. */
  ghost predicate Walks<S>(step: (S, byte) -> Option<S>, field: S -> Option<Field>, u: S, ps: seq<Piece>, v: S) {
    Run(step, Some(u), TextOf(ps)) == Some(v) && Marks(step, field, Some(u), TextOf(ps)) == Labels(ps)
  }

  lemma WalksOn<S>(step: (S, byte) -> Option<S>, field: S -> Option<Field>, u: S, ps: seq<Piece>, v: S,
      qs: seq<Piece>, w: S)
    requires Walks(step, field, u, ps, v) && Walks(step, field, v, qs, w)
    ensures Walks(step, field, u, ps + qs, w)
  {
    TextMore(ps, qs);
    RunMore(step, field, Some(u), TextOf(ps), TextOf(qs));
  }

  lemma OnePiece(piece: Piece)
    ensures TextOf([piece]) == piece.text && Labels([piece]) == Repeat(piece.field, |piece.text|)
  {
    assert TextOf([piece]) == piece.text + [] && Labels([piece]) == Repeat(piece.field, |piece.text|) + [];
  }

  /** An empty piece, or one that the automaton enters and stays in. */
  lemma PieceWalks<S>(step: (S, byte) -> Option<S>, field: S -> Option<Field>, u: S, v: S, piece: Piece)
    requires if piece.text == [] then u == v
             else piece.field == field(v) && step(u, piece.text[0]) == Some(v) &&
                  forall k :: 0 < k < |piece.text| ==> step(v, piece.text[k]) == Some(v)
    ensures Walks(step, field, u, [piece], v)
  {
    OnePiece(piece);
    if piece.text != [] { Enters(step, field, u, v, piece.text); }
  }

  /** The automaton takes the text to a state, through bytes of one field. */
  ghost predicate Takes<S>(step: (S, byte) -> Option<S>, field: S -> Option<Field>, u: S, t: Bytes, v: S,
      f: Option<Field>)
  {
    Run(step, Some(u), t) == Some(v) && Marks(step, field, Some(u), t) == Repeat(f, |t|)
  }

  lemma TakesOn<S>(step: (S, byte) -> Option<S>, field: S -> Option<Field>, u: S, x: Bytes, v: S, y: Bytes, w: S,
      f: Option<Field>)
    requires Takes(step, field, u, x, v, f) && Takes(step, field, v, y, w, f)
    ensures Takes(step, field, u, x + y, w, f)
  {
    RunMore(step, field, Some(u), x, y);
    RepeatMore(f, |x|, |y|);
  }

  lemma TakesOne<S>(step: (S, byte) -> Option<S>, field: S -> Option<Field>, u: S, c: byte, v: S)
    requires step(u, c) == Some(v)
    ensures Takes(step, field, u, [c], v, field(v))
  {
    One(step, field, u, c);
  }

  lemma RepeatMore(field: Option<Field>, m: nat, n: nat)
    ensures Repeat(field, m) + Repeat(field, n) == Repeat(field, m + n)
  {
  }

  // ----- the outer automaton accepts the text

  lemma LetterMoves(c: byte)
    requires Letter(c)
    ensures ParseUrlChar(UrlSpaces, c) == Some(ReqSchema) && ParseUrlChar(ReqSchema, c) == Some(ReqSchema)
  {
  }

  lemma PathMoves(c: byte)
    requires PathByte(c)
    ensures ParseUrlChar(ReqPath, c) == Some(ReqPath)
  {
  }

  lemma QueryMoves(c: byte)
    requires QueryByte(c)
    ensures ParseUrlChar(ReqQueryStringStart, c) == ParseUrlChar(ReqQueryString, c) == Some(ReqQueryString)
  {
  }

  lemma FragmentMoves(c: byte)
    requires FragmentByte(c)
    ensures ParseUrlChar(ReqFragment, c) == Some(ReqFragment)
    ensures ParseUrlChar(ReqFragmentStart, c) == Some(if c == 35 then ReqFragmentStart else ReqFragment)
  {
  }

  /** A byte of a server but for `@`. */
  predicate ServerByte(c: byte) {
    UserinfoByte(c) || c == 91 || c == 93
  }

  lemma ServerMoves(u: UrlState, c: byte)
    requires u.ReqServerStart? || u.ReqServer? || u.ReqServerWithAt?
    ensures ServerByte(c) ==> ParseUrlChar(u, c) == Some(ReqServer)
    ensures c == 64 && !u.ReqServerWithAt? ==> ParseUrlChar(u, c) == Some(ReqServerWithAt)
  {
  }

  function HeadPieces(p: Parts): seq<Piece> {
    [Piece(Some(Schema), Part(p, Schema)), Piece(None, If(p.schema.Some?, [COLON, 47, 47]))]
  }

  lemma SlashesWalk()
    ensures Walks(ParseUrlChar, OuterField, ReqSchema, [Piece(None, [COLON, 47, 47])], ReqServerStart)
  {
    OnePiece(Piece(None, [COLON, 47, 47]));
    One(ParseUrlChar, OuterField, ReqSchema, COLON);
    One(ParseUrlChar, OuterField, ReqSchemaSlash, 47);
    One(ParseUrlChar, OuterField, ReqSchemaSlashSlash, 47);
    RunMore(ParseUrlChar, OuterField, Some(ReqSchema), [COLON], [47]);
    RunMore(ParseUrlChar, OuterField, Some(ReqSchema), [COLON] + [47], [47]);
    assert [COLON] + [47] + [47] == [COLON, 47, 47];
  }

  lemma HeadWalks(p: Parts)
    requires p.schema.Some? && p.schema.value != [] && All(Letter, p.schema.value)
    ensures Walks(ParseUrlChar, OuterField, UrlSpaces, HeadPieces(p), ReqServerStart)
  {
    forall k | 0 <= k < |p.schema.value|
      ensures ParseUrlChar(UrlSpaces, p.schema.value[k]) == ParseUrlChar(ReqSchema, p.schema.value[k]) ==
              Some(ReqSchema)
    {
      LetterMoves(p.schema.value[k]);
    }
    hide Walks, ParseUrlChar;
    var first := Piece(Some(Schema), p.schema.value);
    PieceWalks(ParseUrlChar, OuterField, UrlSpaces, ReqSchema, first);
    SlashesWalk();
    WalksOn(ParseUrlChar, OuterField, UrlSpaces, [first], ReqSchema, [Piece(None, [COLON, 47, 47])], ReqServerStart);
    assert HeadPieces(p) == [first] + [Piece(None, [COLON, 47, 47])];
  }

  /** Where the tail begins, and where each of its parts leaves the automaton. */
  function AfterPath(p: Parts): UrlState {
    if p.path != [] then ReqPath else ReqServer
  }

  function AfterQuery(p: Parts): UrlState {
    if p.query.None? then AfterPath(p) else if p.query.value == [] then ReqQueryStringStart else ReqQueryString
  }

  function AfterFragment(p: Parts): UrlState {
    if p.fragment.None? then AfterQuery(p) else if Part(p, Fragment) == [] then ReqFragmentStart else ReqFragment
  }

  lemma PathWalks(p: Parts)
    requires ProperTail(p)
    ensures Walks(ParseUrlChar, OuterField, if p.server.Some? then ReqServer else UrlSpaces,
                  [Piece(Some(Path), p.path)], AfterPath(p))
  {
    forall k | 0 <= k < |p.path| ensures ParseUrlChar(ReqPath, p.path[k]) == Some(ReqPath) { PathMoves(p.path[k]); }
    var u := if p.server.Some? then ReqServer else UrlSpaces;
    assert p.path != [] ==> ParseUrlChar(u, p.path[0]) == Some(ReqPath);
    hide Walks, ParseUrlChar;
    PieceWalks(ParseUrlChar, OuterField, u, AfterPath(p), Piece(Some(Path), p.path));
  }

  lemma QueryWalks(p: Parts)
    requires ProperTail(p)
    ensures Walks(ParseUrlChar, OuterField, AfterPath(p),
                  [Piece(None, If(p.query.Some?, [63])), Piece(Some(Query), Part(p, Query))], AfterQuery(p))
  {
    var mark, text := If(p.query.Some?, [63]), Part(p, Query);
    forall k | 0 <= k < |text|
      ensures ParseUrlChar(ReqQueryStringStart, text[k]) == ParseUrlChar(ReqQueryString, text[k]) ==
              Some(ReqQueryString)
    {
      QueryMoves(text[k]);
    }
    var middle := if p.query.Some? then ReqQueryStringStart else AfterPath(p);
    assert p.query.Some? ==> ParseUrlChar(AfterPath(p), 63) == Some(ReqQueryStringStart);
    hide Walks, ParseUrlChar;
    PieceWalks(ParseUrlChar, OuterField, AfterPath(p), middle, Piece(None, mark));
    PieceWalks(ParseUrlChar, OuterField, middle, AfterQuery(p), Piece(Some(Query), text));
    WalksOn(ParseUrlChar, OuterField, AfterPath(p), [Piece(None, mark)], middle, [Piece(Some(Query), text)],
            AfterQuery(p));
    assert [Piece(None, mark), Piece(Some(Query), text)] == [Piece(None, mark)] + [Piece(Some(Query), text)];
  }

  lemma FragmentMarkWalks(p: Parts)
    requires ProperTail(p)
    ensures Walks(ParseUrlChar, OuterField, AfterQuery(p), [Piece(None, FragmentMark(p))],
                  if p.fragment.Some? then ReqFragmentStart else AfterQuery(p))
  {
    var mark := FragmentMark(p);
    FragmentMoves(35);
    forall k | 0 <= k < |mark| ensures mark[k] == 35 { }
    assert p.fragment.Some? ==> ParseUrlChar(AfterQuery(p), 35) == Some(ReqFragmentStart);
    hide Walks, ParseUrlChar;
    PieceWalks(ParseUrlChar, OuterField, AfterQuery(p),
               if p.fragment.Some? then ReqFragmentStart else AfterQuery(p), Piece(None, mark));
  }

  lemma FragmentTextWalks(p: Parts)
    requires ProperTail(p)
    ensures Walks(ParseUrlChar, OuterField, if p.fragment.Some? then ReqFragmentStart else AfterQuery(p),
                  [Piece(Some(Fragment), Part(p, Fragment))], AfterFragment(p))
  {
    var text := Part(p, Fragment);
    forall k | 0 <= k < |text| ensures ParseUrlChar(ReqFragment, text[k]) == Some(ReqFragment) {
      FragmentMoves(text[k]);
    }
    if text != [] { FragmentMoves(text[0]); }
    hide Walks, ParseUrlChar;
    PieceWalks(ParseUrlChar, OuterField, if p.fragment.Some? then ReqFragmentStart else AfterQuery(p), AfterFragment(p),
               Piece(Some(Fragment), text));
  }

  lemma FragmentWalks(p: Parts)
    requires ProperTail(p)
    ensures Walks(ParseUrlChar, OuterField, AfterQuery(p),
                  [Piece(None, FragmentMark(p)), Piece(Some(Fragment), Part(p, Fragment))], AfterFragment(p))
  {
    hide *;
    FragmentMarkWalks(p);
    FragmentTextWalks(p);
    var a, b := Piece(None, FragmentMark(p)), Piece(Some(Fragment), Part(p, Fragment));
    WalksOn(ParseUrlChar, OuterField, AfterQuery(p), [a], if p.fragment.Some? then ReqFragmentStart else AfterQuery(p),
            [b], AfterFragment(p));
    assert [a, b] == [a] + [b];
  }

  lemma TailWalks(p: Parts)
    requires ProperTail(p)
    ensures Walks(ParseUrlChar, OuterField, if p.server.Some? then ReqServer else UrlSpaces, TailPieces(p),
                  AfterFragment(p))
  {
    hide Walks, ParseUrlChar, ProperTail;
    var u := if p.server.Some? then ReqServer else UrlSpaces;
    var ps := TailPieces(p);
    PathWalks(p);
    QueryWalks(p);
    FragmentWalks(p);
    assert ps[..1] == [Piece(Some(Path), p.path)];
    assert ps[1..3] == [Piece(None, If(p.query.Some?, [63])), Piece(Some(Query), Part(p, Query))];
    WalksOn(ParseUrlChar, OuterField, u, ps[..1], AfterPath(p), ps[1..3], AfterQuery(p));
    WalksOn(ParseUrlChar, OuterField, u, ps[..1] + ps[1..3], AfterQuery(p), ps[3..], AfterFragment(p));
    assert ps[..1] + ps[1..3] + ps[3..] == ps;
  }

  /** What follows the userinfo and its `@`. */
  function AfterAt(v: Server): Bytes {
    HostWritten(v.host) + Marked([COLON], v.port)
  }

  lemma AfterAtBytes(v: Server)
    requires ProperServer(v)
    ensures AfterAt(v) != [] && All(ServerByte, AfterAt(v))
  {
    HostWrittenBytes(v.host);
    if v.port.Some? {
      forall k | 0 <= k < |v.port.value| ensures ServerByte(v.port.value[k]) { assert IsDigit(v.port.value[k]); }
    }
  }

  lemma HostWrittenBytes(h: HostText)
    requires ProperHost(h)
    ensures HostWritten(h) != [] && All(ServerByte, HostWritten(h))
  {
    var t := HostBytes(h);
    forall k | 0 <= k < |t| ensures ServerByte(t[k]) {
      if h.Bracketed? && k > |h.address| { assert ZoneByte(t[k]); }
    }
  }

  lemma EntersServer(u: UrlState, t: Bytes)
    requires (u.ReqServerStart? || u.ReqServerWithAt?) && t != [] && All(ServerByte, t)
    ensures Takes(ParseUrlChar, OuterField, u, t, ReqServer, Some(Host))
  {
    forall k | 0 <= k < |t| ensures ParseUrlChar(u, t[k]) == ParseUrlChar(ReqServer, t[k]) == Some(ReqServer) {
      ServerMoves(u, t[k]);
      ServerMoves(ReqServer, t[k]);
    }
    hide ParseUrlChar;
    Enters(ParseUrlChar, OuterField, u, ReqServer, t);
  }

  /** To the outer automaton the whole of the server is host. */
  lemma ServerWalks(v: Server)
    requires ProperServer(v)
    ensures Takes(ParseUrlChar, OuterField, ReqServerStart, ServerWritten(v), ReqServer, Some(Host))
  {
    AfterAtBytes(v);
    hide ParseUrlChar, Takes, All;
    if v.userinfo.None? {
      assert ServerWritten(v) == AfterAt(v);
      EntersServer(ReqServerStart, AfterAt(v));
    } else {
      assert All(ServerByte, v.userinfo.value) by { UserinfoIsServer(v.userinfo.value); }
      UserinfoWalks(v.userinfo.value);
      EntersServer(ReqServerWithAt, AfterAt(v));
      TakesOn(ParseUrlChar, OuterField, ReqServerStart, v.userinfo.value + [64], ReqServerWithAt, AfterAt(v), ReqServer,
              Some(Host));
      assert ServerWritten(v) == (v.userinfo.value + [64]) + AfterAt(v);
    }
  }

  lemma UserinfoIsServer(t: Bytes)
    requires All(UserinfoByte, t)
    ensures All(ServerByte, t)
  {
  }

  lemma UserinfoWalks(t: Bytes)
    requires All(ServerByte, t)
    ensures Takes(ParseUrlChar, OuterField, ReqServerStart, t + [64], ReqServerWithAt, Some(Host))
  {
    var u := if t == [] then ReqServerStart else ReqServer;
    ServerMoves(u, 64);
    hide ParseUrlChar, All, Takes;
    TakesOne(ParseUrlChar, OuterField, u, 64, ReqServerWithAt);
    if t == [] {
      assert t + [64] == [64];
    } else {
      EntersServer(ReqServerStart, t);
      TakesOn(ParseUrlChar, OuterField, ReqServerStart, t, ReqServer, [64], ReqServerWithAt, Some(Host));
    }
  }

  // ----- the host automaton accepts the server

  lemma UserinfoMoves(c: byte)
    requires UserinfoByte(c)
    ensures HostChar(UserinfoStart, c) == HostChar(InUserinfo, c) == Some(InUserinfo)
  {
  }

  lemma NameMoves(c: byte)
    requires NameByte(c)
    ensures HostChar(HostStart, c) == HostChar(HostState.HostName, c) == Some(HostState.HostName)
  {
  }

  lemma AddressMoves(c: byte)
    requires AddressByte(c)
    ensures HostChar(V6Start, c) == HostChar(V6, c) == Some(V6)
  {
  }

  lemma ZoneMoves(c: byte)
    requires ZoneByte(c)
    ensures HostChar(V6ZoneStart, c) == HostChar(V6Zone, c) == Some(V6Zone)
  {
  }

  lemma PortMoves(c: byte)
    requires IsDigit(c)
    ensures HostChar(PortStart, c) == HostChar(PortDigits, c) == Some(PortDigits)
  {
  }

  /** Where the host automaton starts. */
  function StartsAt(v: Server): HostState {
    if v.userinfo.Some? then UserinfoStart else HostStart
  }

  function HostDone(h: HostText): HostState {
    if h.Name? then HostState.HostName else V6End
  }

  function ServerDone(v: Server): HostState {
    if v.port.Some? then PortDigits else HostDone(v.host)
  }

  lemma UserinfoPieces(v: Server)
    requires ProperServer(v)
    ensures Walks(HostChar, HostField, StartsAt(v),
                  [Piece(Some(Userinfo), OrNothing(v.userinfo)), Piece(None, If(v.userinfo.Some?, [64]))], HostStart)
  {
    var t := OrNothing(v.userinfo);
    forall k | 0 <= k < |t| ensures HostChar(UserinfoStart, t[k]) == HostChar(InUserinfo, t[k]) == Some(InUserinfo) {
      UserinfoMoves(t[k]);
    }
    var middle := if t == [] then StartsAt(v) else InUserinfo;
    assert HostChar(UserinfoStart, 64) == HostChar(InUserinfo, 64) == Some(HostStart);
    var a, b := Piece(Some(Userinfo), t), Piece(None, If(v.userinfo.Some?, [64]));
    hide Walks, HostChar;
    PieceWalks(HostChar, HostField, StartsAt(v), middle, a);
    PieceWalks(HostChar, HostField, middle, HostStart, b);
    WalksOn(HostChar, HostField, StartsAt(v), [a], middle, [b], HostStart);
    assert [a, b] == [a] + [b];
  }

  lemma NamePiece(name: Bytes)
    requires name != [] && All(NameByte, name)
    ensures Walks(HostChar, HostField, HostStart, [Piece(Some(Host), name)], HostState.HostName)
  {
    forall k | 0 <= k < |name|
      ensures HostChar(HostStart, name[k]) == HostChar(HostState.HostName, name[k]) == Some(HostState.HostName)
    {
      NameMoves(name[k]);
    }
    hide Walks, HostChar;
    PieceWalks(HostChar, HostField, HostStart, HostState.HostName, Piece(Some(Host), name));
  }

  lemma AddressRuns(address: Bytes)
    requires address != [] && All(AddressByte, address)
    ensures Takes(HostChar, HostField, V6Start, address, V6, Some(Host))
  {
    forall k | 0 <= k < |address| ensures HostChar(V6Start, address[k]) == HostChar(V6, address[k]) == Some(V6) {
      AddressMoves(address[k]);
    }
    hide HostChar;
    Enters(HostChar, HostField, V6Start, V6, address);
  }

  lemma ZoneRuns(zone: Bytes)
    requires zone != [] && All(ZoneByte, zone)
    ensures Takes(HostChar, HostField, V6, [37] + zone, V6Zone, Some(Host))
  {
    forall k | 0 <= k < |zone| ensures HostChar(V6ZoneStart, zone[k]) == HostChar(V6Zone, zone[k]) == Some(V6Zone) {
      ZoneMoves(zone[k]);
    }
    TakesOne(HostChar, HostField, V6, 37, V6ZoneStart);
    hide HostChar;
    Enters(HostChar, HostField, V6ZoneStart, V6Zone, zone);
    assert Takes(HostChar, HostField, V6ZoneStart, zone, V6Zone, Some(Host));
    hide Takes;
    TakesOn(HostChar, HostField, V6, [37], V6ZoneStart, zone, V6Zone, Some(Host));
  }

  lemma BracketedPiece(h: HostText)
    requires h.Bracketed? && ProperHost(h)
    ensures Walks(HostChar, HostField, V6Start, [Piece(Some(Host), HostBytes(h))], if h.zone.Some? then V6Zone else V6)
  {
    hide HostChar, All, Run, Marks;
    OnePiece(Piece(Some(Host), HostBytes(h)));
    AddressRuns(h.address);
    if h.zone.Some? {
      ZoneRuns(h.zone.value);
      TakesOn(HostChar, HostField, V6Start, h.address, V6, [37] + h.zone.value, V6Zone, Some(Host));
    } else {
      assert HostBytes(h) == h.address + [] && HostBytes(h) == h.address;
    }
  }

  lemma HostPieces(h: HostText)
    requires ProperHost(h)
    ensures Walks(HostChar, HostField, HostStart,
                  [Piece(None, If(h.Bracketed?, [91])), Piece(Some(Host), HostBytes(h)),
                   Piece(None, If(h.Bracketed?, [93]))],
                  HostDone(h))
  {
    var a, b, c := Piece(None, If(h.Bracketed?, [91])), Piece(Some(Host), HostBytes(h)),
                   Piece(None, If(h.Bracketed?, [93]));
    var u := if h.Bracketed? then V6Start else HostStart;
    var v := if h.Name? then HostState.HostName else if h.zone.Some? then V6Zone else V6;
    assert HostChar(HostStart, 91) == Some(V6Start) && HostChar(V6, 93) == HostChar(V6Zone, 93) == Some(V6End);
    hide Walks, HostChar;
    PieceWalks(HostChar, HostField, HostStart, u, a);
    if h.Name? { NamePiece(h.name); } else { BracketedPiece(h); }
    PieceWalks(HostChar, HostField, v, HostDone(h), c);
    WalksOn(HostChar, HostField, HostStart, [a], u, [b], v);
    WalksOn(HostChar, HostField, HostStart, [a] + [b], v, [c], HostDone(h));
    assert [a, b, c] == [a] + [b] + [c];
  }

  lemma PortPieces(v: Server)
    requires ProperServer(v)
    ensures Walks(HostChar, HostField, HostDone(v.host),
                  [Piece(None, If(v.port.Some?, [COLON])), Piece(Some(Port), OrNothing(v.port))], ServerDone(v))
  {
    hide Walks, HostChar, ProperHost;
    var t := OrNothing(v.port);
    forall k | 0 <= k < |t| ensures HostChar(PortStart, t[k]) == HostChar(PortDigits, t[k]) == Some(PortDigits) {
      PortMoves(t[k]);
    }
    var u, middle := HostDone(v.host), if v.port.Some? then PortStart else HostDone(v.host);
    ColonMoves(v.host);
    var a, b := Piece(None, If(v.port.Some?, [COLON])), Piece(Some(Port), t);
    PieceWalks(HostChar, HostField, u, middle, a);
    PieceWalks(HostChar, HostField, middle, ServerDone(v), b);
    WalksOn(HostChar, HostField, u, [a], middle, [b], ServerDone(v));
    assert [a, b] == [a] + [b];
  }

  lemma ColonMoves(h: HostText)
    ensures HostChar(HostDone(h), COLON) == Some(PortStart)
  {
  }

  lemma ServerPiecesWalk(p: Parts)
    requires p.server.Some? && ProperServer(p.server.value)
    ensures var v := p.server.value; Walks(HostChar, HostField, StartsAt(v), ServerPieces(p), ServerDone(v))
  {
    var v, ps := p.server.value, ServerPieces(p);
    UserinfoPieces(v);
    HostPieces(v.host);
    PortPieces(v);
    hide Walks;
    assert ps[..2] == [Piece(Some(Userinfo), OrNothing(v.userinfo)), Piece(None, If(v.userinfo.Some?, [64]))];
    assert ps[2..5] == [Piece(None, If(v.host.Bracketed?, [91])), Piece(Some(Host), HostBytes(v.host)),
                        Piece(None, If(v.host.Bracketed?, [93]))];
    assert ps[5..] == [Piece(None, If(v.port.Some?, [COLON])), Piece(Some(Port), OrNothing(v.port))];
    WalksOn(HostChar, HostField, StartsAt(v), ps[..2], HostStart, ps[2..5], HostDone(v.host));
    WalksOn(HostChar, HostField, StartsAt(v), ps[..2] + ps[2..5], HostDone(v.host), ps[5..], ServerDone(v));
    assert ps == ps[..2] + ps[2..5] + ps[5..];
  }

  // ----- the text is its pieces

  lemma Texts(p: Parts)
    requires p.server.Some? || p.schema.None?
    ensures TextOf(HeadPieces(p)) == (if p.schema.Some? then p.schema.value + [COLON, 47, 47] else [])
    ensures TextOf(ServerPieces(p)) == (if p.server.Some? then ServerWritten(p.server.value) else [])
    ensures TextOf(TailPieces(p)) == Tail(p)
    ensures TextOf(Pieces(p)) == Written(p)
  {
    HeadText(p);
    ServerText(p);
    TailText(p);
    TextMore(HeadPieces(p), ServerPieces(p));
    TextMore(HeadPieces(p) + ServerPieces(p), TailPieces(p));
  }

  lemma HeadText(p: Parts)
    ensures TextOf(HeadPieces(p)) == (if p.schema.Some? then p.schema.value + [COLON, 47, 47] else [])
  {
    TwoTexts(HeadPieces(p)[0], HeadPieces(p)[1]);
  }

  lemma TwoTexts(a: Piece, b: Piece)
    ensures TextOf([a, b]) == a.text + b.text
  {
    OnePiece(a);
    OnePiece(b);
    TextMore([a], [b]);
    assert [a, b] == [a] + [b];
  }

  lemma ThreeTexts(a: Piece, b: Piece, c: Piece)
    ensures TextOf([a, b, c]) == a.text + b.text + c.text
  {
    TwoTexts(a, b);
    OnePiece(c);
    TextMore([a, b], [c]);
    assert [a, b, c] == [a, b] + [c];
  }

  lemma ServerText(p: Parts)
    ensures TextOf(ServerPieces(p)) == (if p.server.Some? then ServerWritten(p.server.value) else [])
  {
    hide TextOf;
    var ps := ServerPieces(p);
    TwoTexts(ps[0], ps[1]);
    ThreeTexts(ps[2], ps[3], ps[4]);
    TwoTexts(ps[5], ps[6]);
    TextMore([ps[0], ps[1]], [ps[2], ps[3], ps[4]]);
    TextMore([ps[0], ps[1]] + [ps[2], ps[3], ps[4]], [ps[5], ps[6]]);
    assert ps == [ps[0], ps[1]] + [ps[2], ps[3], ps[4]] + [ps[5], ps[6]];
    if p.server.Some? {
      var v := p.server.value;
      assert ps[0].text + ps[1].text == if v.userinfo.Some? then v.userinfo.value + [64] else [];
      assert ps[2].text + ps[3].text + ps[4].text == HostWritten(v.host);
      assert ps[5].text + ps[6].text == Marked([COLON], v.port);
    }
  }

  lemma TailText(p: Parts)
    ensures TextOf(TailPieces(p)) == Tail(p)
  {
    hide TextOf;
    var ps := TailPieces(p);
    ThreeTexts(ps[0], ps[1], ps[2]);
    TwoTexts(ps[3], ps[4]);
    TextMore([ps[0], ps[1], ps[2]], [ps[3], ps[4]]);
    assert ps == [ps[0], ps[1], ps[2]] + [ps[3], ps[4]];
    FragmentText(p.fragment);
    assert ps[0].text + ps[1].text + ps[2].text == p.path + Marked([63], p.query);
  }

  lemma FragmentText(fragment: Option<Bytes>)
    ensures var f := OrNothing(fragment);
      (If(fragment.Some?, [35]) + f[..Hashes(f)]) + f[Hashes(f)..] == Marked([35], fragment)
  {
    var f := OrNothing(fragment);
    assert f[..Hashes(f)] + f[Hashes(f)..] == f;
  }

  // ----- runs and the automata by positions

  lemma RunNext<S>(step: (S, byte) -> Option<S>, field: S -> Option<Field>, u: Option<S>, t: Bytes, i: nat)
    requires i < |t|
    ensures var w := Run(step, u, t[..i]);
      Run(step, u, t[..i + 1]) == if w.None? then None else step(w.value, t[i])
  {
    var w := Run(step, u, t[..i]);
    assert t[..i + 1] == t[..i] + [t[i]];
    RunMore(step, field, u, t[..i], [t[i]]);
    assert [t[i]][1..] == [];
  }

  lemma MarkIs<S>(step: (S, byte) -> Option<S>, field: S -> Option<Field>, u: Option<S>, t: Bytes, i: nat)
    requires i < |t|
    ensures var w := Run(step, u, t[..i + 1]);
      Marks(step, field, u, t)[i] == if w.None? then None else field(w.value)
  {
    var w := Run(step, u, t[..i]);
    RunNext(step, field, u, t, i);
    RunMore(step, field, u, t[..i], t[i..]);
    assert t == t[..i] + t[i..];
    assert Marks(step, field, u, t)[i] == Marks(step, field, w, t[i..])[0];
  }

  lemma {:induction false} UrlIs(s: UrlState, buf: Bytes, i: nat)
    requires i <= |buf|
    ensures UrlAfter(s, buf, i) == Run(ParseUrlChar, Some(s), buf[..i])
  {
    hide ParseUrlChar;
    if i > 0 {
      UrlIs(s, buf, i - 1);
      RunNext(ParseUrlChar, OuterField, Some(s), buf, i - 1);
    }
  }

  lemma OuterIs(s: UrlState, buf: Bytes, i: nat)
    requires i < |buf|
    ensures OuterAt(s, buf, i) == Marks(ParseUrlChar, OuterField, Some(s), buf)[i]
  {
    hide ParseUrlChar, Run, Marks, UrlAfter;
    UrlIs(s, buf, i + 1);
    MarkIs(ParseUrlChar, OuterField, Some(s), buf, i);
  }

  /** The host part is the stretch from `a` to `b`. */
  ghost predicate HostPart(s: UrlState, buf: Bytes, a: nat, b: nat) {
    a <= b <= |buf| && forall j :: 0 <= j < |buf| ==> (OuterAt(s, buf, j) == Some(Host) <==> a <= j < b)
  }

  lemma {:induction false} HostIs(s: UrlState, buf: Bytes, h: HostState, a: nat, b: nat, i: nat)
    requires HostPart(s, buf, a, b) && a <= i <= b
    ensures HostAfter(s, buf, h, i) == Run(HostChar, Some(h), buf[a..b][..i - a])
    decreases i
  {
    hide OuterAt, HostChar;
    if i == a {
      HostSame(s, buf, h, 0, a);
    } else {
      HostIs(s, buf, h, a, b, i - 1);
      RunNext(HostChar, HostField, Some(h), buf[a..b], i - 1 - a);
    }
  }

  lemma HostAllIs(s: UrlState, buf: Bytes, h: HostState, a: nat, b: nat)
    requires HostPart(s, buf, a, b)
    ensures HostAfter(s, buf, h, |buf|) == Run(HostChar, Some(h), buf[a..b])
  {
    hide OuterAt, HostChar, HostAfter, Run;
    HostIs(s, buf, h, a, b, b);
    assert buf[a..b][..b - a] == buf[a..b];
    HostSame(s, buf, h, b, |buf|);
  }

  /** An `@` was found exactly if the host part has one. */
  lemma FoundIs(s: UrlState, buf: Bytes, a: nat, b: nat)
    requires HostPart(s, buf, a, b) && !s.ReqServerWithAt?
    ensures FoundAt(s, buf) <==> 64 in buf[a..b]
  {
    hide OuterAt, ParseUrlChar, UrlAfter;
    FoundBeforeIs(s, buf, |buf|);
    if 64 in buf[a..b] {
      var k :| 0 <= k < b - a && buf[a..b][k] == 64;
      assert OuterAt(s, buf, a + k) == Some(Host) && buf[a + k] == 64;
      assert FoundAt(s, buf);
    }
    if FoundAt(s, buf) {
      var k :| 0 <= k < |buf| && OuterAt(s, buf, k) == Some(Host) && buf[k] == 64;
      assert buf[a..b][k - a] == 64;
    }
  }

  lemma {:induction false} FoundBeforeIs(s: UrlState, buf: Bytes, i: nat)
    requires i <= |buf| && !s.ReqServerWithAt?
    ensures FoundBefore(s, buf, i) <==> exists k :: 0 <= k < i && OuterAt(s, buf, k) == Some(Host) && buf[k] == 64
    decreases i
  {
    hide OuterAt, ParseUrlChar, UrlAfter;
    if i > 0 {
      FoundBeforeIs(s, buf, i - 1);
      AtIs(s, buf, i - 1);
    }
  }

  lemma AtIs(s: UrlState, buf: Bytes, k: nat)
    requires k < |buf|
    ensures UrlAfter(s, buf, k + 1) == Some(ReqServerWithAt) <==> OuterAt(s, buf, k) == Some(Host) && buf[k] == 64
  {
    hide ParseUrlChar;
    if UrlAfter(s, buf, k + 1).Some? { AtMoves(UrlAfter(s, buf, k).value, buf[k]); }
  }

  lemma AtMoves(u: UrlState, c: byte)
    requires ParseUrlChar(u, c).Some?
    ensures ParseUrlChar(u, c) == Some(ReqServerWithAt) <==>
            OuterField(ParseUrlChar(u, c).value) == Some(Host) && c == 64
  {
  }

  /** The field of a byte, from the marks of the two automata. */
  lemma FieldMarks(s: UrlState, buf: Bytes, a: nat, b: nat, i: nat)
    requires HostPart(s, buf, a, b) && i < |buf|
    ensures FieldAt(s, buf, i) ==
            if a <= i < b then Marks(HostChar, HostField, Some(HostStartOf(s, buf)), buf[a..b])[i - a]
            else Marks(ParseUrlChar, OuterField, Some(s), buf)[i]
  {
    hide OuterAt, HostAfter, HostChar, ParseUrlChar, Run, Marks, HostStartOf;
    OuterIs(s, buf, i);
    if a <= i < b {
      HostIs(s, buf, HostStartOf(s, buf), a, b, i + 1);
      MarkIs(HostChar, HostField, Some(HostStartOf(s, buf)), buf[a..b], i - a);
    }
  }

  // ----- splitting inverts composing

  /** Where the tail starts. */
  function TailStart(p: Parts): UrlState {
    if p.server.Some? then ReqServer else UrlSpaces
  }

  /** What the outer automaton makes of the text before the tail. */
  lemma FrontWalks(p: Parts, connect: bool)
    requires Formed(p, connect)
    ensures var x, y := TextOf(HeadPieces(p)), TextOf(ServerPieces(p));
      Run(ParseUrlChar, Some(StartOf(connect)), x + y) == Some(TailStart(p)) &&
      Marks(ParseUrlChar, OuterField, Some(StartOf(connect)), x + y) ==
      Labels(HeadPieces(p)) + Repeat(Some(Host), |y|)
  {
    hide ParseUrlChar, All, ProperServer, ProperTail;
    var x, y := TextOf(HeadPieces(p)), TextOf(ServerPieces(p));
    Texts(p);
    if p.schema.Some? {
      HeadWalks(p);
    } else {
      assert x == [] && Labels(HeadPieces(p)) == [];
    }
    var middle := if p.schema.Some? then ReqServerStart else StartOf(connect);
    if p.server.Some? {
      ServerWalks(p.server.value);
    } else {
      assert y == [] && Repeat(Some(Host), 0) == [];
    }
    hide Run, Marks, TextOf, Labels, Repeat;
    RunMore(ParseUrlChar, OuterField, Some(StartOf(connect)), x, y);
  }

  lemma OuterWalks(p: Parts, connect: bool)
    requires Formed(p, connect)
    ensures Run(ParseUrlChar, Some(StartOf(connect)), Written(p)) == Some(AfterFragment(p))
    ensures Marks(ParseUrlChar, OuterField, Some(StartOf(connect)), Written(p)) ==
            Labels(HeadPieces(p)) + Repeat(Some(Host), |TextOf(ServerPieces(p))|) + Labels(TailPieces(p))
  {
    hide ParseUrlChar, All, ProperServer, ProperTail, Run, Marks, TextOf, Labels, Repeat;
    var front := TextOf(HeadPieces(p)) + TextOf(ServerPieces(p));
    Texts(p);
    FrontWalks(p, connect);
    TailWalks(p);
    RunMore(ParseUrlChar, OuterField, Some(StartOf(connect)), front, TextOf(TailPieces(p)));
    assert Written(p) == front + TextOf(TailPieces(p));
  }

  /** The host part is where the marks say so. */
  lemma MarkedPart(s: UrlState, buf: Bytes, x: seq<Option<Field>>, n: nat, y: seq<Option<Field>>)
    requires Marks(ParseUrlChar, OuterField, Some(s), buf) == x + Repeat(Some(Host), n) + y
    requires (forall j :: 0 <= j < |x| ==> x[j] != Some(Host)) && (forall j :: 0 <= j < |y| ==> y[j] != Some(Host))
    ensures HostPart(s, buf, |x|, |x| + n)
  {
    hide OuterAt, Marks;
    forall j | 0 <= j < |buf| ensures OuterAt(s, buf, j) == Some(Host) <==> |x| <= j < |x| + n {
      OuterIs(s, buf, j);
      if j >= |x| + n { assert (x + Repeat(Some(Host), n) + y)[j] == y[j - |x| - n]; }
    }
  }

  lemma NoHostOutside(p: Parts)
    ensures forall j :: 0 <= j < |Labels(HeadPieces(p))| ==> Labels(HeadPieces(p))[j] != Some(Host)
    ensures forall j :: 0 <= j < |Labels(TailPieces(p))| ==> Labels(TailPieces(p))[j] != Some(Host)
  {
    OtherLabels(HeadPieces(p), Some(Host));
    OtherLabels(TailPieces(p), Some(Host));
  }

  lemma Between(x: Bytes, y: Bytes, z: Bytes)
    ensures (x + y + z)[|x|..|x| + |y|] == y
  {
  }

  lemma HostIsServer(p: Parts, connect: bool)
    requires Formed(p, connect)
    ensures var a, n := |TextOf(HeadPieces(p))|, |TextOf(ServerPieces(p))|;
      HostPart(StartOf(connect), Written(p), a, a + n) && Written(p)[a..a + n] == TextOf(ServerPieces(p))
  {
    hide TextOf, Labels, Marks, Run, TailPieces, HeadPieces, ServerPieces, HostPart, ProperTail, ProperServer, Repeat,
         ServerWritten, Tail;
    Texts(p);
    OuterWalks(p, connect);
    NoHostOutside(p);
    MarkedPart(StartOf(connect), Written(p), Labels(HeadPieces(p)), |TextOf(ServerPieces(p))|, Labels(TailPieces(p)));
    Between(TextOf(HeadPieces(p)), TextOf(ServerPieces(p)), TextOf(TailPieces(p)));
  }

  lemma NoAt(t: Bytes)
    requires All(ServerByte, t)
    ensures 64 !in t
  {
  }

  lemma AtInServer(p: Parts)
    requires p.server.Some? && ProperServer(p.server.value)
    ensures 64 in TextOf(ServerPieces(p)) <==> p.server.value.userinfo.Some?
    ensures ServerWritten(p.server.value) == TextOf(ServerPieces(p)) != []
  {
    var v := p.server.value;
    ServerText(p);
    AfterAtBytes(v);
    hide All, TextOf, ServerPieces, ProperServer;
    if v.userinfo.Some? {
      assert ServerWritten(v)[|v.userinfo.value|] == 64;
    } else {
      assert ServerWritten(v) == AfterAt(v);
      NoAt(AfterAt(v));
    }
  }

  /** The marks of both automata, put together, are the fields of the pieces. */
  lemma PiecesMarked(p: Parts, connect: bool)
    requires Formed(p, connect)
    ensures var s, buf, a, n := StartOf(connect), Written(p), |TextOf(HeadPieces(p))|, |TextOf(ServerPieces(p))|;
      HostPart(s, buf, a, a + n) && |Labels(Pieces(p))| == |buf| &&
      Labels(Pieces(p)) == Labels(HeadPieces(p)) +
      Marks(HostChar, HostField, Some(HostStartOf(s, buf)), buf[a..a + n]) + Labels(TailPieces(p))
    ensures p.server.Some? ==>
      Run(HostChar, Some(HostStartOf(StartOf(connect), Written(p))), TextOf(ServerPieces(p))) ==
      Some(ServerDone(p.server.value))
  {
    hide TextOf, Labels, Marks, Run, TailPieces, HeadPieces, ServerPieces, HostPart, ProperTail, ProperServer, Repeat,
         ServerWritten, Tail, HostChar, FoundAt;
    var s, buf, a, n := StartOf(connect), Written(p), |TextOf(HeadPieces(p))|, |TextOf(ServerPieces(p))|;
    Texts(p);
    HostIsServer(p, connect);
    if p.server.Some? {
      AtInServer(p);
      FoundIs(s, buf, a, a + n);
      ServerPiecesWalk(p);
    } else {
      EmptyMarks(HostStartOf(s, buf), ServerPieces(p));
    }
    TextMore(HeadPieces(p), ServerPieces(p));
    TextMore(HeadPieces(p) + ServerPieces(p), TailPieces(p));
    AllPieces(p);
  }

  lemma EmptyMarks(h: HostState, ps: seq<Piece>)
    requires TextOf(ps) == []
    ensures Marks(HostChar, HostField, Some(h), []) == Labels(ps)
  {
    assert Labels(ps) == [];
  }

  lemma AllPieces(p: Parts)
    ensures Pieces(p) == HeadPieces(p) + ServerPieces(p) + TailPieces(p)
  {
  }

  /** Every byte belongs to the part that it was written for. */
  lemma FieldsSplit(p: Parts, connect: bool)
    requires Formed(p, connect)
    ensures |Labels(Pieces(p))| == |Written(p)|
    ensures forall i :: 0 <= i < |Written(p)| ==> FieldAt(StartOf(connect), Written(p), i) == Labels(Pieces(p))[i]
  {
    hide TextOf, Labels, Marks, Run, TailPieces, HeadPieces, ServerPieces, HostPart, ProperTail, ProperServer, Repeat,
         ServerWritten, Tail, FieldAt, HostStartOf, Pieces, Formed, Written;
    var s, buf, a, n := StartOf(connect), Written(p), |TextOf(HeadPieces(p))|, |TextOf(ServerPieces(p))|;
    PiecesMarked(p, connect);
    OuterWalks(p, connect);
    forall i | 0 <= i < |buf| ensures FieldAt(s, buf, i) == Labels(Pieces(p))[i] {
      FieldMarks(s, buf, a, a + n, i);
    }
  }

  lemma PortIsDigits(p: Parts, connect: bool)
    requires Formed(p, connect)
    ensures AllDigits(Part(p, Port))
  {
  }

  lemma PieceOf(p: Parts, f: Field)
    ensures Pieces(p)[PlaceOf(f)] == Piece(Some(f), Part(p, f))
    ensures forall k :: 0 <= k < 14 && k != PlaceOf(f) ==> Pieces(p)[k].field != Some(f)
  {
  }

  /** The text before a part. */
  ghost function TextBefore(p: Parts, f: Field): Bytes {
    TextOf(Pieces(p)[..PlaceOf(f)])
  }

  /** The bytes of a field are its part, in its place. */
  lemma FieldSpan(p: Parts, connect: bool, f: Field)
    requires Formed(p, connect)
    ensures var buf, off, n := Written(p), |TextBefore(p, f)|, |Part(p, f)|;
      off + n <= |buf| && buf[off..off + n] == Part(p, f) &&
      forall j :: 0 <= j < |buf| ==> (FieldAt(StartOf(connect), buf, j) == Some(f) <==> off <= j < off + n)
  {
    hide Formed, FieldAt, Pieces, Part, TextOf, Labels;
    Texts'(p, connect);
    var ps, k := Pieces(p), PlaceOf(f);
    FieldsSplit(p, connect);
    PieceOf(p, f);
    PieceAt(ps, k);
    OtherLabels(ps[..k], Some(f));
    OtherLabels(ps[k + 1..], Some(f));
    OnlyThere(Labels(ps), |TextBefore(p, f)|, |Part(p, f)|, Some(f));
  }

  lemma Texts'(p: Parts, connect: bool)
    requires Formed(p, connect)
    ensures TextOf(Pieces(p)) == Written(p)
  {
    hide TextOf, Pieces, Written, ProperTail, ProperServer;
    Texts(p);
  }

  lemma OnlyThere(labels: seq<Option<Field>>, off: nat, n: nat, f: Option<Field>)
    requires off + n <= |labels|
    requires f !in labels[..off] && f !in labels[off + n..]
    requires forall j :: off <= j < off + n ==> labels[j] == f
    ensures forall j :: 0 <= j < |labels| ==> (labels[j] == f <==> off <= j < off + n)
  {
    forall j | 0 <= j < |labels| ensures labels[j] == f <==> off <= j < off + n {
      if j < off { assert labels[..off][j] == labels[j]; }
      if j >= off + n { assert labels[off + n..][j - off - n] == labels[j]; }
    }
  }

  lemma HasIs(p: Parts, connect: bool, f: Field)
    requires Formed(p, connect)
    ensures Has(StartOf(connect), Written(p), f) <==> Part(p, f) != []
  {
    hide Formed, FieldAt, Part, Written, TextBefore;
    FieldSpan(p, connect, f);
    if Part(p, f) != [] {
      assert FieldAt(StartOf(connect), Written(p), |TextBefore(p, f)|) == Some(f);
    }
  }

  /** Text written from parts is well-formed. */
  lemma WrittenIsWellFormed(p: Parts, connect: bool)
    requires Proper(p, connect)
    ensures WellFormedUrl(Written(p), connect)
  {
    hide FieldAt, OuterAt, UrlAfter, HostAfter, Part, Written, ProperTail, ProperServer, Run, Marks, TextOf;
    var s, buf := StartOf(connect), Written(p);
    assert buf[..|buf|] == buf;
    OuterWalks(p, connect);
    UrlIs(s, buf, |buf|);
    HostAccepted(p, connect);
    if connect {
      forall f ensures Has(s, buf, f) <==> f == Host || f == Port { HasIs(p, connect, f); }
    }
  }

  lemma HostAccepted(p: Parts, connect: bool)
    requires Formed(p, connect)
    ensures var s, buf := StartOf(connect), Written(p);
      buf != [] && (HasOuter(s, buf, Host) <==> p.server.Some?) && (HasOuter(s, buf, Schema) ==> p.server.Some?) &&
      (p.server.Some? ==> HostAfter(s, buf, HostStartOf(s, buf), |buf|) == Some(ServerDone(p.server.value)))
  {
    hide OuterAt, UrlAfter, HostAfter, ProperServer, Run, Marks, TextOf, HostStartOf, Labels, Pieces, HeadPieces,
         ServerPieces, TailPieces, ServerWritten, Tail;
    var s, buf, a, n := StartOf(connect), Written(p), |TextOf(HeadPieces(p))|, |TextOf(ServerPieces(p))|;
    Texts(p);
    HostIsServer(p, connect);
    if p.server.Some? {
      AtInServer(p);
      PiecesMarked(p, connect);
      HostAllIs(s, buf, HostStartOf(s, buf), a, a + n);
      assert OuterAt(s, buf, a) == Some(Host);
    } else {
      TailNonEmpty(p);
      OuterWalks(p, connect);
      NoSchema(p, s, buf);
    }
  }

  lemma TailNonEmpty(p: Parts)
    requires p.path != []
    ensures Tail(p) != []
  {
  }

  lemma NoSchema(p: Parts, s: UrlState, buf: Bytes)
    requires p.server.None? && p.schema.None? && Marks(ParseUrlChar, OuterField, Some(s), buf) ==
      Labels(HeadPieces(p)) + Repeat(Some(Host), |TextOf(ServerPieces(p))|) + Labels(TailPieces(p))
    requires TextOf(ServerPieces(p)) == [] && TextOf(HeadPieces(p)) == []
    ensures !HasOuter(s, buf, Schema)
  {
    hide OuterAt, Marks;
    OtherLabels(TailPieces(p), Some(Schema));
    forall j | 0 <= j < |buf| ensures OuterAt(s, buf, j) != Some(Schema) {
      OuterIs(s, buf, j);
    }
  }

  // ----- every well-formed URL is written so

  /** The outer automaton, from a state, accepts the text. */
  ghost predicate Accepts(u: UrlState, t: Bytes) {
    Run(ParseUrlChar, Some(u), t).Some?
  }

  lemma AcceptsNext(u: UrlState, t: Bytes)
    requires Accepts(u, t) && t != []
    ensures ParseUrlChar(u, t[0]).Some? && Accepts(ParseUrlChar(u, t[0]).value, t[1..])
  {
    hide ParseUrlChar;
    if ParseUrlChar(u, t[0]).None? { Refused(ParseUrlChar, t[1..]); }
  }

  lemma {:induction false} FragmentForm(u: UrlState, t: Bytes)
    requires (u.ReqFragmentStart? || u.ReqFragment?) && Accepts(u, t)
    ensures All(FragmentByte, t)
    decreases |t|
  {
    if t != [] {
      AcceptsNext(u, t);
      FragmentForm(ParseUrlChar(u, t[0]).value, t[1..]);
    }
  }

  /** One byte more before a text of three or four stretches. */
  lemma Longer(t: Bytes, a: Bytes, b: Bytes, c: Bytes, d: Bytes)
    requires t != []
    ensures t[1..] == a + b + c ==> t == [t[0]] + a + b + c
    ensures t[1..] == a + b + c + d ==> t == [t[0]] + a + b + c + d
  {
    assert t == [t[0]] + t[1..];
  }

  lemma Consed(kind: byte -> bool, c: byte, t: Bytes)
    requires kind(c) && All(kind, t)
    ensures All(kind, [c] + t)
  {
  }

  lemma {:induction false} QueryForm(u: UrlState, t: Bytes) returns (query: Bytes, fragment: Option<Bytes>)
    requires (u.ReqQueryStringStart? || u.ReqQueryString?) && Accepts(u, t)
    ensures t == query + Marked([35], fragment) && All(QueryByte, query) && All(FragmentByte, OrNothing(fragment))
    decreases |t|
  {
    if t == [] {
      query, fragment := [], None;
    } else {
      AcceptsNext(u, t);
      QueryByteOrMark(u, t[0]);
      hide ParseUrlChar, QueryByte;
      if t[0] == 35 {
        FragmentForm(ReqFragmentStart, t[1..]);
        query, fragment := [], Some(t[1..]);
      } else {
        query, fragment := QueryForm(ReqQueryString, t[1..]);
        Consed(QueryByte, t[0], query);
        query := [t[0]] + query;
      }
    }
  }

  lemma QueryByteOrMark(u: UrlState, c: byte)
    requires (u.ReqQueryStringStart? || u.ReqQueryString?) && ParseUrlChar(u, c).Some?
    ensures if c == 35 then ParseUrlChar(u, c) == Some(ReqFragmentStart)
            else QueryByte(c) && ParseUrlChar(u, c) == Some(ReqQueryString)
  {
  }

  lemma {:induction false} PathForm(t: Bytes) returns (path: Bytes, query: Option<Bytes>, fragment: Option<Bytes>)
    requires Accepts(ReqPath, t)
    ensures t == path + Marked([63], query) + Marked([35], fragment)
    ensures All(PathByte, path) && All(QueryByte, OrNothing(query)) && All(FragmentByte, OrNothing(fragment))
    decreases |t|
  {
    path, query, fragment := [], None, None;
    if t != [] {
      AcceptsNext(ReqPath, t);
      PathByteOrMark(t[0]);
      hide ParseUrlChar, QueryByte, PathByte, FragmentByte;
      if t[0] == 63 {
        var q;
        q, fragment := QueryForm(ReqQueryStringStart, t[1..]);
        query := Some(q);
        assert t == [63] + t[1..];
      } else if t[0] == 35 {
        FragmentForm(ReqFragmentStart, t[1..]);
        fragment := Some(t[1..]);
        assert t == [35] + t[1..];
      } else {
        path, query, fragment := PathForm(t[1..]);
        Consed(PathByte, t[0], path);
        assert t == [t[0]] + t[1..];
        path := [t[0]] + path;
      }
    }
  }

  lemma PathByteOrMark(c: byte)
    requires ParseUrlChar(ReqPath, c).Some?
    ensures if c == 63 then ParseUrlChar(ReqPath, c) == Some(ReqQueryStringStart)
            else if c == 35 then ParseUrlChar(ReqPath, c) == Some(ReqFragmentStart)
            else PathByte(c) && ParseUrlChar(ReqPath, c) == Some(ReqPath)
  {
  }

  /** What may follow a server. */
  predicate EndsServer(t: Bytes) {
    t == [] || t[0] == 47 || t[0] == 63
  }

  predicate InServer(u: UrlState) {
    u.ReqServerStart? || u.ReqServer? || u.ReqServerWithAt?
  }

  /** The server, and what follows it. */
  lemma {:induction false} ServerForm(u: UrlState, t: Bytes) returns (a: Bytes, rest: Bytes)
    requires InServer(u) && Accepts(u, t)
    ensures t == a + rest && EndsServer(rest) && Accepts(ReqServer, rest)
    ensures Marks(ParseUrlChar, OuterField, Some(u), t) ==
            Repeat(Some(Host), |a|) + Marks(ParseUrlChar, OuterField, Some(ReqServer), rest)
    decreases |t|
  {
    hide *;
    if EndsServer(t) {
      a, rest := [], t;
      assert t == [] + t;
      LeavesServer(u, t);
    } else {
      ServerGoesOn(u, t);
      a, rest := ServerForm(ParseUrlChar(u, t[0]).value, t[1..]);
      assert t == [t[0]] + t[1..];
      OneMore(Marks(ParseUrlChar, OuterField, Some(ReqServer), rest), |a|);
      a := [t[0]] + a;
    }
  }

  lemma ServerGoesOn(u: UrlState, t: Bytes)
    requires InServer(u) && Accepts(u, t) && !EndsServer(t)
    ensures t != [] && ParseUrlChar(u, t[0]).Some? && InServer(ParseUrlChar(u, t[0]).value) &&
            Accepts(ParseUrlChar(u, t[0]).value, t[1..])
    ensures Marks(ParseUrlChar, OuterField, Some(u), t) ==
            [Some(Host)] + Marks(ParseUrlChar, OuterField, ParseUrlChar(u, t[0]), t[1..])
  {
    AcceptsNext(u, t);
    ServerByteMoves(u, t[0]);
    hide ParseUrlChar, Accepts;
  }

  lemma OneMore(marks: seq<Option<Field>>, n: nat)
    ensures [Some(Host)] + (Repeat(Some(Host), n) + marks) == Repeat(Some(Host), n + 1) + marks
  {
    assert [Some(Host)] + Repeat(Some(Host), n) == Repeat(Some(Host), n + 1);
  }

  lemma LeavesServer(u: UrlState, t: Bytes)
    requires InServer(u) && EndsServer(t) && Accepts(u, t)
    ensures Accepts(ReqServer, t)
    ensures Marks(ParseUrlChar, OuterField, Some(u), t) ==
            Repeat(Some(Host), 0) + Marks(ParseUrlChar, OuterField, Some(ReqServer), t)
  {
    if t != [] {
      AcceptsNext(u, t);
      assert ParseUrlChar(u, t[0]) == ParseUrlChar(ReqServer, t[0]);
    }
  }

  lemma ServerByteMoves(u: UrlState, c: byte)
    requires InServer(u) && ParseUrlChar(u, c).Some? && c != 47 && c != 63
    ensures var v := ParseUrlChar(u, c).value; InServer(v) && !v.ReqServerStart? && OuterField(v) == Some(Host)
  {
  }

  lemma TailMoves(c: byte)
    ensures c == 47 ==> ParseUrlChar(ReqServer, c) == ParseUrlChar(UrlSpaces, c) == Some(ReqPath) && PathByte(c)
    ensures c == 42 ==> ParseUrlChar(UrlSpaces, c) == Some(ReqPath) && PathByte(c)
    ensures c == 63 ==> ParseUrlChar(ReqServer, c) == Some(ReqQueryStringStart)
  {
  }

  lemma NoBytes()
    ensures All(PathByte, []) && All(QueryByte, []) && All(FragmentByte, [])
  {
  }

  /** The tail of an accepted text, after a server or alone. */
  lemma TailForm(server: bool, t: Bytes) returns (path: Bytes, query: Option<Bytes>, fragment: Option<Bytes>)
    requires if server then EndsServer(t) && Accepts(ReqServer, t)
             else t != [] && (t[0] == 47 || t[0] == 42) && Accepts(UrlSpaces, t)
    ensures t == path + Marked([63], query) + Marked([35], fragment)
    ensures All(PathByte, path) && All(QueryByte, OrNothing(query)) && All(FragmentByte, OrNothing(fragment))
    ensures path != [] ==> path[0] == 47 || (path[0] == 42 && !server)
    ensures (!server ==> path != []) && (path == [] && query.None? ==> fragment.None?)
  {
    hide All, Accepts;
    if t == [] {
      path, query, fragment := [], None, None;
      assert All(PathByte, path) && All(QueryByte, []) && All(FragmentByte, []) by { NoBytes(); }
    } else {
      AcceptsNext(if server then ReqServer else UrlSpaces, t);
      TailMoves(t[0]);
      hide ParseUrlChar, PathByte, QueryByte, FragmentByte;
      NoBytes();
      if t[0] == 63 {
        var q;
        path := [];
        q, fragment := QueryForm(ReqQueryStringStart, t[1..]);
        query := Some(q);
        assert t == [] + ([63] + q) + Marked([35], fragment) by { assert t == [t[0]] + t[1..]; }
      } else {
        path, query, fragment := PathForm(t[1..]);
        Consed(PathByte, t[0], path);
        Longer(t, path, Marked([63], query), Marked([35], fragment), []);
        path := [t[0]] + path;
      }
    }
  }

  /** Letters, then `://`; or no host. */
  lemma {:induction false} SchemaForm(t: Bytes) returns (ok: bool, schema: Bytes, rest: Bytes)
    requires Accepts(ReqSchema, t)
    ensures ok ==> t == schema + [COLON, 47, 47] + rest && All(Letter, schema) && Accepts(ReqServerStart, rest)
    ensures !ok ==> Some(Host) !in Marks(ParseUrlChar, OuterField, Some(ReqSchema), t)
    decreases |t|
  {
    ok, schema, rest := false, [], [];
    if t != [] {
      AcceptsNext(ReqSchema, t);
      SchemaMoves(t[0]);
      hide ParseUrlChar;
      if t[0] == COLON {
        ok := SlashesForm(t[1..]);
        if ok {
          rest := t[3..];
          assert t[1..][2..] == rest && t == [] + [COLON, 47, 47] + rest;
        }
      } else {
        ok, schema, rest := SchemaForm(t[1..]);
        if ok {
          Consed(Letter, t[0], schema);
          schema := [t[0]] + schema;
          assert t == [t[0]] + t[1..];
        }
      }
    }
  }

  lemma SchemaMoves(c: byte)
    requires ParseUrlChar(ReqSchema, c).Some?
    ensures if c == COLON then ParseUrlChar(ReqSchema, c) == Some(ReqSchemaSlash)
            else Letter(c) && ParseUrlChar(ReqSchema, c) == Some(ReqSchema)
  {
  }

  lemma SlashesForm(t: Bytes) returns (ok: bool)
    requires Accepts(ReqSchemaSlash, t)
    ensures ok ==> |t| >= 2 && t[0] == t[1] == 47 && Accepts(ReqServerStart, t[2..])
    ensures !ok ==> Some(Host) !in Marks(ParseUrlChar, OuterField, Some(ReqSchemaSlash), t)
  {
    ok := |t| >= 2;
    if t != [] {
      AcceptsNext(ReqSchemaSlash, t);
      if |t| > 1 {
        AcceptsNext(ReqSchemaSlashSlash, t[1..]);
        assert t[1..][1..] == t[2..];
      } else {
        assert Marks(ParseUrlChar, OuterField, Some(ReqSchemaSlash), t) == [None] + [];
      }
    }
  }

  // the host part, by the host automaton

  ghost predicate Ends(h: HostState, t: Bytes) {
    var e := Run(HostChar, Some(h), t);
    e.Some? && HostEnds(e.value)
  }

  lemma EndsNext(h: HostState, t: Bytes)
    requires Ends(h, t) && t != []
    ensures HostChar(h, t[0]).Some? && Ends(HostChar(h, t[0]).value, t[1..])
  {
    hide HostChar;
    if HostChar(h, t[0]).None? { Refused(HostChar, t[1..]); }
  }

  lemma {:induction false} PortForm(h: HostState, t: Bytes)
    requires (h.PortStart? || h.PortDigits?) && Ends(h, t)
    ensures AllDigits(t) && (h.PortStart? ==> t != [])
    decreases |t|
  {
    if t != [] {
      EndsNext(h, t);
      PortForm(PortDigits, t[1..]);
    }
  }

  /** After the host, perhaps a port. */
  lemma AfterHostForm(t: Bytes) returns (port: Option<Bytes>)
    requires Ends(V6End, t) || (Ends(HostState.HostName, t) && (t == [] || t[0] == COLON))
    ensures t == Marked([COLON], port) && (port.Some? ==> port.value != [] && AllDigits(port.value))
  {
    port := None;
    if t != [] {
      EndsNext(if Ends(V6End, t) then V6End else HostState.HostName, t);
      assert t[0] == COLON;
      PortForm(PortStart, t[1..]);
      port := Some(t[1..]);
    }
  }

  lemma {:induction false} NameForm(t: Bytes) returns (name: Bytes, port: Option<Bytes>)
    requires Ends(HostState.HostName, t)
    ensures t == name + Marked([COLON], port) && All(NameByte, name)
    ensures port.Some? ==> port.value != [] && AllDigits(port.value)
    decreases |t|
  {
    hide NameByte, Ends, AllDigits, HostChar;
    if t == [] || t[0] == COLON {
      name := [];
      port := AfterHostForm(t);
      assert t == [] + Marked([COLON], port);
    } else {
      EndsNext(HostState.HostName, t);
      NameByteOrColon(t[0]);
      name, port := NameForm(t[1..]);
      Consed(NameByte, t[0], name);
      assert t == [t[0]] + t[1..];
      name := [t[0]] + name;
    }
  }

  lemma NameByteOrColon(c: byte)
    requires HostChar(HostState.HostName, c).Some? && c != COLON
    ensures NameByte(c) && HostChar(HostState.HostName, c) == Some(HostState.HostName)
  {
  }

  lemma {:induction false} ZoneForm(h: HostState, t: Bytes) returns (zone: Bytes, port: Option<Bytes>)
    requires (h.V6ZoneStart? || h.V6Zone?) && Ends(h, t)
    ensures t == zone + [93] + Marked([COLON], port) && All(ZoneByte, zone) && (h.V6ZoneStart? ==> zone != [])
    ensures port.Some? ==> port.value != [] && AllDigits(port.value)
    decreases |t|
  {
    assert t != [];
    EndsNext(h, t);
    ZoneByteOrEnd(h, t[0]);
    hide HostChar, ZoneByte, Ends, AllDigits;
    if t[0] == 93 {
      zone := [];
      port := AfterHostForm(t[1..]);
      assert t == [] + [93] + Marked([COLON], port) by { assert t == [t[0]] + t[1..]; }
      assert All(ZoneByte, []);
    } else {
      zone, port := ZoneForm(V6Zone, t[1..]);
      Consed(ZoneByte, t[0], zone);
      Longer(t, zone, [93], Marked([COLON], port), []);
      zone := [t[0]] + zone;
    }
  }

  lemma ZoneByteOrEnd(h: HostState, c: byte)
    requires (h.V6ZoneStart? || h.V6Zone?) && HostChar(h, c).Some?
    ensures if c == 93 then h.V6Zone? && HostChar(h, c) == Some(V6End)
            else ZoneByte(c) && HostChar(h, c) == Some(V6Zone)
  {
  }

  lemma {:induction false} AddressForm(h: HostState, t: Bytes)
    returns (address: Bytes, zone: Option<Bytes>, port: Option<Bytes>)
    requires (h.V6Start? || h.V6?) && Ends(h, t)
    ensures t == address + Marked([37], zone) + [93] + Marked([COLON], port)
    ensures All(AddressByte, address) && (h.V6Start? ==> address != [])
    ensures zone.Some? ==> zone.value != [] && All(ZoneByte, zone.value)
    ensures port.Some? ==> port.value != [] && AllDigits(port.value)
    decreases |t|
  {
    assert t != [];
    EndsNext(h, t);
    AddressByteOrEnd(h, t[0]);
    hide HostChar, AddressByte, ZoneByte, Ends, AllDigits;
    address, zone := [], None;
    if t[0] == 93 {
      port := AfterHostForm(t[1..]);
      assert t == [] + [] + [93] + Marked([COLON], port) by { assert t == [t[0]] + t[1..]; }
    } else if t[0] == 37 {
      var z;
      z, port := ZoneForm(V6ZoneStart, t[1..]);
      zone := Some(z);
      assert t == [] + ([37] + z) + [93] + Marked([COLON], port) by { assert t == [t[0]] + t[1..]; }
    } else {
      address, zone, port := AddressForm(V6, t[1..]);
      Consed(AddressByte, t[0], address);
      Longer(t, address, Marked([37], zone), [93], Marked([COLON], port));
      address := [t[0]] + address;
    }
  }

  lemma AddressByteOrEnd(h: HostState, c: byte)
    requires (h.V6Start? || h.V6?) && HostChar(h, c).Some?
    ensures if c == 93 then h.V6? && HostChar(h, c) == Some(V6End)
            else if c == 37 then h.V6? && HostChar(h, c) == Some(V6ZoneStart)
            else AddressByte(c) && HostChar(h, c) == Some(V6)
  {
  }

  lemma HostForm(t: Bytes) returns (host: HostText, port: Option<Bytes>)
    requires Ends(HostStart, t)
    ensures t == HostWritten(host) + Marked([COLON], port) && ProperHost(host)
    ensures port.Some? ==> port.value != [] && AllDigits(port.value)
  {
    assert t != [];
    EndsNext(HostStart, t);
    HostByteOrOpen(t[0]);
    hide HostChar, NameByte, Ends, AllDigits, HostWritten, ProperHost;
    if t[0] == 91 {
      host, port := BracketedForm(t);
    } else {
      host, port := NamedForm(t);
    }
  }

  lemma BracketedForm(t: Bytes) returns (host: HostText, port: Option<Bytes>)
    requires t != [] && t[0] == 91 && Ends(V6Start, t[1..])
    ensures t == HostWritten(host) + Marked([COLON], port) && ProperHost(host)
    ensures port.Some? ==> port.value != [] && AllDigits(port.value)
  {
    hide Ends, AllDigits, All;
    var address, zone;
    address, zone, port := AddressForm(V6Start, t[1..]);
    host := Bracketed(address, zone);
    Enclosed(t, address, Marked([37], zone), Marked([COLON], port));
  }

  lemma NamedForm(t: Bytes) returns (host: HostText, port: Option<Bytes>)
    requires t != [] && NameByte(t[0]) && Ends(HostState.HostName, t[1..])
    ensures t == HostWritten(host) + Marked([COLON], port) && ProperHost(host)
    ensures port.Some? ==> port.value != [] && AllDigits(port.value)
  {
    hide Ends, AllDigits, All, NameByte;
    var name;
    name, port := NameForm(t[1..]);
    Consed(NameByte, t[0], name);
    assert t == [t[0]] + t[1..];
    host := Name([t[0]] + name);
  }

  lemma Enclosed(t: Bytes, a: Bytes, b: Bytes, c: Bytes)
    requires t != [] && t[0] == 91 && t[1..] == a + b + [93] + c
    ensures t == [91] + (a + b) + [93] + c
  {
    assert t == [t[0]] + t[1..];
  }

  lemma HostByteOrOpen(c: byte)
    requires HostChar(HostStart, c).Some?
    ensures if c == 91 then HostChar(HostStart, c) == Some(V6Start)
            else NameByte(c) && HostChar(HostStart, c) == Some(HostState.HostName)
  {
  }

  lemma {:induction false} UserinfoForm(h: HostState, t: Bytes) returns (userinfo: Bytes, rest: Bytes)
    requires (h.UserinfoStart? || h.InUserinfo?) && Ends(h, t)
    ensures t == userinfo + [64] + rest && All(UserinfoByte, userinfo) && Ends(HostStart, rest)
    decreases |t|
  {
    assert t != [];
    EndsNext(h, t);
    assert t == [t[0]] + t[1..];
    UserinfoByteOrAt(h, t[0]);
    hide HostChar, UserinfoByte, Ends;
    if t[0] == 64 {
      userinfo, rest := [], t[1..];
    } else {
      userinfo, rest := UserinfoForm(InUserinfo, t[1..]);
      Consed(UserinfoByte, t[0], userinfo);
      userinfo := [t[0]] + userinfo;
    }
  }

  lemma UserinfoByteOrAt(h: HostState, c: byte)
    requires (h.UserinfoStart? || h.InUserinfo?) && HostChar(h, c).Some?
    ensures if c == 64 then HostChar(h, c) == Some(HostStart)
            else UserinfoByte(c) && HostChar(h, c) == Some(InUserinfo)
  {
  }

  lemma ServerPartForm(h: HostState, t: Bytes) returns (v: Server)
    requires (h.UserinfoStart? || h.HostStart?) && Ends(h, t)
    ensures t == ServerWritten(v) && ProperServer(v)
  {
    hide Ends, HostWritten, ProperHost, UserinfoByte;
    if h.HostStart? {
      var host, port := HostForm(t);
      v := Server(None, host, port);
    } else {
      var userinfo, rest := UserinfoForm(h, t);
      var host, port := HostForm(rest);
      v := Server(Some(userinfo), host, port);
    }
  }

  /** A text with a server: its parts, and where the server lies. */
  lemma OuterForm(buf: Bytes, x: Bytes, t: Bytes, schema: Option<Bytes>, connect: bool) returns (q: Parts, a: Bytes)
    requires buf == x + t && Accepts(ReqServerStart, t)
    requires x == if schema.Some? then schema.value + [COLON, 47, 47] else []
    requires if connect then schema.None? else schema.Some? && schema.value != [] && All(Letter, schema.value)
    ensures q.schema == schema && q.server.Some? && ProperTail(q) && buf == x + a + Tail(q)
    ensures HostPart(StartOf(connect), buf, |x|, |x| + |a|)
  {
    hide All, Accepts, ParseUrlChar, EndsServer, HostPart;
    var s := StartOf(connect);
    var rest, path, query, fragment;
    a, rest := ServerForm(ReqServerStart, t);
    path, query, fragment := TailForm(true, rest);
    q := Parts(schema, Some(Server(None, Name([]), None)), path, query, fragment);
    HeadText(q);
    if schema.Some? {
      HeadWalks(q);
    } else {
      assert x == [] && Labels(HeadPieces(q)) == [];
    }
    TailText(q);
    TailWalks(q);
    hide Run, Marks, TextOf, Labels, Repeat, ProperTail;
    RunMore(ParseUrlChar, OuterField, Some(s), x, t);
    NoHostOutside(q);
    Regroup(Labels(HeadPieces(q)), Repeat(Some(Host), |a|), Labels(TailPieces(q)));
    MarkedPart(s, buf, Labels(HeadPieces(q)), |a|, Labels(TailPieces(q)));
    Regroup(x, a, rest);
  }

  /** A well-formed text with a server is written from parts. */
  lemma ServerUrl(buf: Bytes, x: Bytes, t: Bytes, schema: Option<Bytes>, connect: bool) returns (p: Parts)
    requires buf == x + t && Accepts(ReqServerStart, t)
    requires x == if schema.Some? then schema.value + [COLON, 47, 47] else []
    requires if connect then schema.None? else schema.Some? && schema.value != [] && All(Letter, schema.value)
    requires var h := HostAfter(StartOf(connect), buf, HostStartOf(StartOf(connect), buf), |buf|);
      h.Some? && HostEnds(h.value)
    ensures Formed(p, connect) && Written(p) == buf
  {
    hide All, Accepts, HostAfter, FoundAt, ProperTail, ProperServer, HostPart, Run;
    var s := StartOf(connect);
    var q, a := OuterForm(buf, x, t, schema, connect);
    HostAllIs(s, buf, HostStartOf(s, buf), |x|, |x| + |a|);
    Between(x, a, Tail(q));
    assert Ends(HostStartOf(s, buf), a);
    var v := ServerPartForm(HostStartOf(s, buf), a);
    p := q.(server := Some(v));
    SameTail(q, p);
  }

  lemma SameTail(q: Parts, p: Parts)
    requires q.server.Some? && p.server.Some? && q.path == p.path && q.query == p.query && q.fragment == p.fragment
    ensures (ProperTail(q) <==> ProperTail(p)) && Tail(q) == Tail(p)
  {
  }

  lemma NoHostMarks(s: UrlState, buf: Bytes)
    requires Some(Host) !in Marks(ParseUrlChar, OuterField, Some(s), buf)
    ensures !HasOuter(s, buf, Host)
  {
    hide OuterAt, Marks;
    forall j | 0 <= j < |buf| ensures OuterAt(s, buf, j) != Some(Host) {
      OuterIs(s, buf, j);
    }
  }

  lemma StartsWithLetter(buf: Bytes)
    requires buf != [] && Letter(buf[0]) && Accepts(UrlSpaces, buf)
    ensures Accepts(ReqSchema, buf[1..]) && HasOuter(UrlSpaces, buf, Schema)
    ensures Marks(ParseUrlChar, OuterField, Some(UrlSpaces), buf) ==
            [Some(Schema)] + Marks(ParseUrlChar, OuterField, Some(ReqSchema), buf[1..])
  {
    AcceptsNext(UrlSpaces, buf);
    LetterMoves(buf[0]);
    OuterIs(UrlSpaces, buf, 0);
    hide OuterAt, ParseUrlChar;
    assert OuterAt(UrlSpaces, buf, 0) == Some(Schema);
  }

  lemma FirstByte(c: byte)
    requires ParseUrlChar(UrlSpaces, c).Some?
    ensures c == 47 || c == 42 || Letter(c)
  {
  }

  /** A host field lies in the host part. */
  lemma HostIsOuter(s: UrlState, buf: Bytes)
    requires Has(s, buf, Host)
    ensures HasOuter(s, buf, Host)
  {
    hide HostAfter, UrlAfter, FoundAt;
    var i :| 0 <= i < |buf| && FieldAt(s, buf, i) == Some(Host);
    assert OuterAt(s, buf, i) == Some(Host);
  }

  lemma PartsOf(buf: Bytes, connect: bool) returns (p: Parts)
    requires WellFormedUrl(buf, connect)
    ensures Formed(p, connect) && Written(p) == buf
  {
    hide OuterAt, FieldAt, HostAfter, UrlAfter, FoundAt, All, ParseUrlChar, Run, Marks, Formed, Written;
    var s := StartOf(connect);
    UrlIs(s, buf, |buf|);
    assert buf[..|buf|] == buf && Accepts(s, buf);
    if connect {
      assert Has(s, buf, Host);
      HostIsOuter(s, buf);
      assert buf == [] + buf;
      p := ServerUrl(buf, [], buf, None, connect);
    } else {
      AcceptsNext(s, buf);
      FirstByte(buf[0]);
      if Letter(buf[0]) {
        StartsWithLetter(buf);
        var ok, schema, rest := SchemaForm(buf[1..]);
        if !ok { NoHostMarks(s, buf); }
        Consed(Letter, buf[0], schema);
        assert buf == ([buf[0]] + schema + [COLON, 47, 47]) + rest;
        p := ServerUrl(buf, [buf[0]] + schema + [COLON, 47, 47], rest, Some([buf[0]] + schema), connect);
      } else {
        p := PathUrl(buf);
      }
    }
  }

  lemma PathUrl(buf: Bytes) returns (p: Parts)
    requires buf != [] && (buf[0] == 47 || buf[0] == 42) && Accepts(UrlSpaces, buf)
    ensures Formed(p, false) && Written(p) == buf
  {
    var path, query, fragment := TailForm(false, buf);
    p := Parts(None, None, path, query, fragment);
    assert Written(p) == [] + [] + Tail(p) && Tail(p) == buf;
  }

  /** The well-formed URLs are exactly the texts written from proper parts. */
  lemma WellFormedIsWritten(buf: Bytes, connect: bool)
    ensures WellFormedUrl(buf, connect) <==> exists p :: Proper(p, connect) && Written(p) == buf
  {
    hide WellFormedUrl, Formed, Written, Part, Has;
    if WellFormedUrl(buf, connect) {
      var p := PartsOf(buf, connect);
      if connect {
        forall f ensures Part(p, f) != [] <==> f == Host || f == Port {
          HasIs(p, connect, f);
          ConnectHas(buf, f);
        }
      }
    }
    forall p | Proper(p, connect) && Written(p) == buf ensures WellFormedUrl(buf, connect) {
      WrittenIsWellFormed(p, connect);
    }
  }

  lemma ConnectHas(buf: Bytes, f: Field)
    requires WellFormedUrl(buf, true)
    ensures Has(StartOf(true), buf, f) <==> f == Host || f == Port
  {
    hide Has, HasOuter, UrlAfter, HostAfter;
  }
}
