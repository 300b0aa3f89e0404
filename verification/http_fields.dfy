/** Which field each byte of a URL belongs to: two small automata, one over the whole buffer and
    one over its host part. */
module HttpFields {
  import opened Bytes
  import opened HttpTypes

  datatype Field = Schema | Host | Port | Path | Query | Fragment | Userinfo

  datatype Span = Span(off: nat, len: nat)

  datatype HostState =
    | UserinfoStart | InUserinfo | HostStart | V6Start | HostName | V6 | V6End | V6ZoneStart | V6Zone
    | PortStart | PortDigits

  /** http_parse_host_char; None stands for s_http_host_dead. */
  function HostChar(s: HostState, ch: byte): Option<HostState> {
    match s
    case UserinfoStart | InUserinfo =>
      if ch == 64 then Some(HostStart) else if IsUserinfoChar(ch) then Some(InUserinfo) else None
    case HostStart => if ch == 91 then Some(V6Start) else if IsHostChar(ch) then Some(HostName) else None
    case HostName => if IsHostChar(ch) then Some(HostName) else if ch == 58 then Some(PortStart) else None
    case V6End => if ch == 58 then Some(PortStart) else None
    case V6 =>
      if ch == 93 then Some(V6End) else if IsHex(ch) || ch == 58 || ch == 46 then Some(V6)
      else if ch == 37 then Some(V6ZoneStart) else None
    case V6Start => if IsHex(ch) || ch == 58 || ch == 46 then Some(V6) else None
    case V6Zone => if ch == 93 then Some(V6End) else ZoneChar(ch)
    case V6ZoneStart => ZoneChar(ch)
    case PortDigits | PortStart => if IsDigit(ch) then Some(PortDigits) else None
  }

  function ZoneChar(ch: byte): Option<HostState> {
    if IsAlphaNum(ch) || ch in {37, 46, 45, 95, 126} then Some(V6Zone) else None
  }

  // ----- which field each byte belongs to

  /** The field of the byte that led to a state; None for a delimiter. */
  function OuterField(u: UrlState): Option<Field> {
    match u
    case ReqSchema => Some(Schema)
    case ReqServer | ReqServerWithAt => Some(Host)
    case ReqPath => Some(Path)
    case ReqQueryString => Some(Query)
    case ReqFragment => Some(Fragment)
    case _ => None
  }

  function HostField(h: HostState): Option<Field> {
    match h
    case HostName | V6 | V6ZoneStart | V6Zone => Some(Host)
    case PortDigits => Some(Port)
    case InUserinfo => Some(Userinfo)
    case _ => None
  }

  function StartOf(connect: bool): UrlState {
    if connect then ReqServerStart else UrlSpaces
  }

  /** The URL automaton after the first `i` bytes; None once it has refused one. */
  ghost function UrlAfter(s: UrlState, buf: Bytes, i: nat): Option<UrlState>
    requires i <= |buf|
  {
    if i == 0 then Some(s)
    else match UrlAfter(s, buf, i - 1)
      case Some(u) => ParseUrlChar(u, buf[i - 1])
      case None => None
  }

  ghost function OuterAt(s: UrlState, buf: Bytes, i: nat): Option<Field>
    requires i < |buf|
  {
    match UrlAfter(s, buf, i + 1)
    case Some(u) => OuterField(u)
    case None => None
  }

  /** Whether an `@` was seen among the first `i` bytes, where a host is expected. */
  ghost predicate FoundBefore(s: UrlState, buf: Bytes, i: nat)
    requires i <= |buf|
  {
    i > 0 && (UrlAfter(s, buf, i) == Some(ReqServerWithAt) || FoundBefore(s, buf, i - 1))
  }

  ghost predicate FoundAt(s: UrlState, buf: Bytes) {
    FoundBefore(s, buf, |buf|)
  }

  ghost function HostStartOf(s: UrlState, buf: Bytes): HostState {
    if FoundAt(s, buf) then UserinfoStart else HostStart
  }

  /** The host automaton after those of the first `i` bytes that belong to the host part. */
  ghost function HostAfter(s: UrlState, buf: Bytes, h: HostState, i: nat): Option<HostState>
    requires i <= |buf|
  {
    if i == 0 then Some(h)
    else if OuterAt(s, buf, i - 1) != Some(Host) then HostAfter(s, buf, h, i - 1)
    else match HostAfter(s, buf, h, i - 1)
      case Some(g) => HostChar(g, buf[i - 1])
      case None => None
  }

  /** The field that the byte at `i` belongs to. */
  ghost function FieldAt(s: UrlState, buf: Bytes, i: nat): Option<Field>
    requires i < |buf|
  {
    if OuterAt(s, buf, i) != Some(Host) then OuterAt(s, buf, i)
    else match HostAfter(s, buf, HostStartOf(s, buf), i + 1)
      case Some(h) => HostField(h)
      case None => None
  }

  ghost predicate HasOuter(s: UrlState, buf: Bytes, f: Field) {
    exists i :: 0 <= i < |buf| && OuterAt(s, buf, i) == Some(f)
  }

  ghost predicate Has(s: UrlState, buf: Bytes, f: Field) {
    exists i :: 0 <= i < |buf| && FieldAt(s, buf, i) == Some(f)
  }

  /** The states in which a host part may end. */
  predicate HostEnds(h: HostState) {
    h.HostName? || h.V6End? || h.PortDigits?
  }

  /** What a URL must be, apart from the size of its port number. */
  ghost predicate WellFormedUrl(buf: Bytes, connect: bool) {
    var s := StartOf(connect);
    && buf != []
    && UrlAfter(s, buf, |buf|).Some?
    && (HasOuter(s, buf, Schema) ==> HasOuter(s, buf, Host))
    && (HasOuter(s, buf, Host) ==>
          var h := HostAfter(s, buf, HostStartOf(s, buf), |buf|); h.Some? && HostEnds(h.value))
    && (connect ==> forall f :: Has(s, buf, f) <==> f == Host || f == Port)
  }

  predicate Delimiter(c: byte) {
    c in {58, 47, 63, 35, 64, 91, 93}
  }

  lemma {:induction false} UrlAfterSome(s: UrlState, buf: Bytes, i: nat, j: nat)
    requires i <= j <= |buf| && UrlAfter(s, buf, j).Some?
    ensures UrlAfter(s, buf, i).Some?
    decreases j
  {
    if i < j { UrlAfterSome(s, buf, i, j - 1); }
  }

  lemma {:induction false} HostAfterSome(s: UrlState, buf: Bytes, h: HostState, i: nat, j: nat)
    requires i <= j <= |buf| && HostAfter(s, buf, h, j).Some?
    ensures HostAfter(s, buf, h, i).Some?
    decreases j
  {
    if i < j { HostAfterSome(s, buf, h, i, j - 1); }
  }

  /** Every byte of a well-formed URL that is in no field is a delimiter. */
  lemma RestIsDelimiters(buf: Bytes, connect: bool, i: nat)
    requires WellFormedUrl(buf, connect) && i < |buf| && FieldAt(StartOf(connect), buf, i) == None
    ensures Delimiter(buf[i])
  {
    var s := StartOf(connect);
    UrlAfterSome(s, buf, i + 1, |buf|);
    UrlAfterSome(s, buf, i, |buf|);
    var u := UrlAfter(s, buf, i).value;
    if OuterAt(s, buf, i) == Some(Host) {
      var h := HostStartOf(s, buf);
      HostAfterSome(s, buf, h, i + 1, |buf|);
      HostAfterSome(s, buf, h, i, |buf|);
      HostDelimiter(HostAfter(s, buf, h, i).value, buf[i]);
    } else {
      UrlDelimiter(u, buf[i]);
    }
  }

  lemma UrlDelimiter(u: UrlState, ch: byte)
    requires var v := ParseUrlChar(u, ch); v.Some? && OuterField(v.value) == None
    ensures Delimiter(ch)
  {
  }

  lemma HostDelimiter(h: HostState, ch: byte)
    requires var g := HostChar(h, ch); g.Some? && HostField(g.value) == None
    ensures Delimiter(ch)
  {
  }

  lemma HostNone(s: UrlState, buf: Bytes, h: HostState)
    ensures HostAfter(s, buf, h, 0) == Some(h)
  {
  }

  lemma {:induction false} HostSame(s: UrlState, buf: Bytes, h: HostState, i: nat, j: nat)
    requires i <= j <= |buf| && forall k :: i <= k < j ==> OuterAt(s, buf, k) != Some(Host)
    ensures HostAfter(s, buf, h, j) == HostAfter(s, buf, h, i)
    decreases j
  {
    hide OuterAt;
    if i < j { HostSame(s, buf, h, i, j - 1); }
  }

  lemma HostNext(s: UrlState, buf: Bytes, h0: HostState, p: nat, h: HostState)
    requires p < |buf| && OuterAt(s, buf, p) == Some(Host) && HostAfter(s, buf, h0, p) == Some(h)
    ensures HostAfter(s, buf, h0, p + 1) == HostChar(h, buf[p])
  {
    hide OuterAt, HostChar;
  }

  lemma HostRefused(s: UrlState, buf: Bytes, h0: HostState, p: nat)
    requires p <= |buf| && HostAfter(s, buf, h0, p) == None
    ensures HostAfter(s, buf, h0, |buf|) == None
  {
    hide HostAfter;
    if HostAfter(s, buf, h0, |buf|).Some? { HostAfterSome(s, buf, h0, p, |buf|); }
  }
}
