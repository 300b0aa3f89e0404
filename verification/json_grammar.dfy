/** What the reader makes of the text left to read: tokens, then values. Every function
    takes the remaining bytes and gives back what remains after it. The settings are
    CharReaderBuilder's defaults, which lidig_json uses: comments and trailing commas are
    accepted, special floats, single quotes and dropped nulls are not. */
module JsonGrammar {
  import opened Bytes
  import opened JsonValue
  import opened JsonNumbers
  import opened JsonStrings

  datatype Kind =
    | EndOfStream | ObjectBegin | ObjectEnd | ArrayBegin | ArrayEnd | StringToken | NumberToken
    | TrueToken | FalseToken | NullToken | ArraySeparator | MemberSeparator | Comment | Error

  /** A token, the text it was made from, and the text after it. */
  datatype Token = Token(kind: Kind, text: Bytes, rest: Bytes)

  predicate IsSpace(c: byte) {
    c == SPACE || c == TAB || c == CR || c == LF
  }

  /** `r` is what remains of `t` after some of it was read. */
  ghost predicate Remains(r: Bytes, t: Bytes) {
    |r| <= |t| && r == t[|t| - |r|..]
  }

  lemma RemainsTwice(r: Bytes, s: Bytes, t: Bytes)
    requires Remains(r, s) && Remains(s, t)
    ensures Remains(r, t)
  {
  }

  function SkipSpaces(t: Bytes): (r: Bytes)
    ensures Remains(r, t)
    ensures r != [] ==> !IsSpace(r[0])
  {
    if t != [] && IsSpace(t[0]) then SkipSpaces(t[1..]) else t
  }

  function SkipDigits(t: Bytes): (r: Bytes)
    ensures Remains(r, t)
  {
    if t != [] && IsDigit(t[0]) then SkipDigits(t[1..]) else t
  }

  function AfterFraction(t: Bytes): (r: Bytes)
    ensures Remains(r, t)
  {
    if t != [] && t[0] == DOT then SkipDigits(t[1..]) else t
  }

  function AfterExponent(t: Bytes): (r: Bytes)
    ensures Remains(r, t)
  {
    if t != [] && (t[0] == 101 || t[0] == 69) then
      SkipDigits(if |t| > 1 && (t[1] == 43 || t[1] == MINUS) then t[2..] else t[1..])
    else t
  }

  /** readNumber, after the first character: integral, fractional and exponential part. */
  function AfterNumber(t: Bytes): (r: Bytes)
    ensures Remains(r, t)
  {
    var t1 := SkipDigits(t);
    var t2 := AfterFraction(t1);
    RemainsTwice(t2, t1, t);
    RemainsTwice(AfterExponent(t2), t2, t);
    AfterExponent(t2)
  }

  /** A C-style comment, after its opening: ends at the first star and slash, or at a slash
      that is the last byte of the document. */
  function AfterCStyle(t: Bytes): (r: (bool, Bytes))
    ensures Remains(r.1, t)
  {
    if |t| > 1 then
      if t[0] == 42 && t[1] == 47 then (true, t[2..]) else AfterCStyle(t[1..])
    else if t == [] then (false, [])
    else (t[0] == 47, [])
  }

  /** A line comment, after its two slashes: ends after LF, CR or CR LF. */
  function AfterCppStyle(t: Bytes): (r: Bytes)
    ensures Remains(r, t)
  {
    if t == [] then []
    else if t[0] == LF then t[1..]
    else if t[0] == CR then (if |t| > 1 && t[1] == LF then t[2..] else t[1..])
    else AfterCppStyle(t[1..])
  }

  function AfterComment(t: Bytes): (r: (bool, Bytes))
    ensures Remains(r.1, t)
  {
    if t == [] then (false, [])
    else if t[0] == 42 then AfterCStyle(t[1..])
    else if t[0] == 47 then (true, AfterCppStyle(t[1..]))
    else (false, t[1..])
  }

  const RUE: Bytes := [114, 117, 101]
  const ALSE: Bytes := [97, 108, 115, 101]
  const ULL: Bytes := [117, 108, 108]

  /** match: consumes the pattern if it is there, and nothing otherwise. */
  function AfterPattern(t: Bytes, pattern: Bytes): (r: (bool, Bytes))
    ensures Remains(r.1, t)
  {
    if pattern <= t then (true, t[|pattern|..]) else (false, t)
  }

  /** The kind of the token that starts with `c`, and the text after it. */
  function Lex(c: byte, t: Bytes): (r: (Kind, Bytes))
    ensures Remains(r.1, t)
    ensures r.0 == StringToken ==> |r.1| < |t|
  {
    if c == 123 then (ObjectBegin, t)
    else if c == 125 then (ObjectEnd, t)
    else if c == 91 then (ArrayBegin, t)
    else if c == 93 then (ArrayEnd, t)
    else if c == QUOTE then
      var (ok, r) := ScanString(t);
      ScanIsSuffix(t);
      (if ok then StringToken else Error, r)
    else if c == 47 then
      var (ok, r) := AfterComment(t);
      (if ok then Comment else Error, r)
    else if IsDigit(c) then (NumberToken, AfterNumber(t))
    else if c == MINUS || c == 43 then
      if t != [] && t[0] == 73 then (Error, t[1..]) else (NumberToken, AfterNumber(t))
    else if c == 116 then
      var (ok, r) := AfterPattern(t, RUE);
      (if ok then TrueToken else Error, r)
    else if c == 102 then
      var (ok, r) := AfterPattern(t, ALSE);
      (if ok then FalseToken else Error, r)
    else if c == 110 then
      var (ok, r) := AfterPattern(t, ULL);
      (if ok then NullToken else Error, r)
    else if c == COMMA then (ArraySeparator, t)
    else if c == COLON then (MemberSeparator, t)
    else if c == NUL then (EndOfStream, t)
    else (Error, t)
  }

  lemma {:induction false} ScanIsSuffix(t: Bytes)
    ensures Remains(ScanString(t).1, t)
    decreases |t|
  {
    if t != [] && t[0] == BACKSLASH && |t| > 1 {
      ScanIsSuffix(t[2..]);
    } else if t != [] && t[0] != BACKSLASH && t[0] != QUOTE {
      ScanIsSuffix(t[1..]);
    }
  }

  /** readToken. It reports success exactly when the kind is not Error. */
  function ReadToken(t: Bytes): (k: Token)
    ensures |k.rest| <= |t| && (k.kind != EndOfStream ==> |k.rest| < |t| && k.text != [])
    ensures k.kind == StringToken ==> |k.text| >= 2
  {
    var u := SkipSpaces(t);
    if u == [] then Token(EndOfStream, [], [])
    else
      var (kind, rest) := Lex(u[0], u[1..]);
      Token(kind, u[..|u| - |rest|], rest)
  }

  /** skipCommentTokens. */
  function SkipComments(t: Bytes): (k: Token)
    ensures |k.rest| <= |t| && (k.kind != EndOfStream ==> |k.rest| < |t| && k.text != []) && k.kind != Comment
    ensures k.kind == StringToken ==> |k.text| >= 2
    decreases |t|
  {
    var k := ReadToken(t);
    if k.kind == Comment then SkipComments(k.rest) else k
  }

  // ----- values

  /** A value and the text after it; a syntax error; or one of the reader's exceptions. */
  datatype Result = Good(value: Value, rest: Bytes) | Bad | Thrown

  /** CharReaderBuilder's stackLimit, and the limits on key and string lengths. */
  const STACK_LIMIT: nat := 1000
  const KEY_LIMIT: nat := 0x4000_0000
  const STRING_LIMIT: nat := 0x7fff_ffff - 4 - 1

  /** operator[] on an object: the member with this key is overwritten, or a new one is
      inserted at its lower bound. */
  function Insert(ms: seq<Member>, key: Bytes, value: Value): seq<Member> {
    if ms == [] then [Member(key, value)]
    else if BytesLess(ms[0].key, key) then [ms[0]] + Insert(ms[1..], key, value)
    else if BytesEqual(ms[0].key, key) then [Member(key, value)] + ms[1..]
    else [Member(key, value)] + ms
  }

  /** decodeNumber: an integer if it fits, else what the stream operator makes of it. */
  function NumberValue(text: Bytes, rest: Bytes, toDouble: Bytes -> Option<real>): Result
    requires text != []
  {
    match DecodeInt(text)
    case Some(v) => Good(v, rest)
    case None =>
      match toDouble(text)
      case Some(r) => Good(Real(r), rest)
      case None => Bad
  }

  /** readValue. `depth` is the size of the stack of open values. */
  function ReadValue(t: Bytes, depth: nat, toDouble: Bytes -> Option<real>): (r: Result)
    ensures r.Good? ==> |r.rest| < |t|
    decreases |t|, 0
  {
    if depth > STACK_LIMIT then Thrown else
    var k := SkipComments(t);
    match k.kind
    case ObjectBegin => ReadMembers(k.rest, depth, [], toDouble)
    case ArrayBegin => ReadElements(k.rest, depth, [], toDouble)
    case NumberToken => NumberValue(k.text, k.rest, toDouble)
    case StringToken =>
      (match Decoded(Body(k.text))
       case None => Bad
       case Some(s) => if |s| > STRING_LIMIT then Thrown else Good(Str(s), k.rest))
    case TrueToken => Good(Bool(true), k.rest)
    case FalseToken => Good(Bool(false), k.rest)
    case NullToken => Good(Null, k.rest)
    case _ => Bad
  }

  /** readObject, with `members` read so far: expects a name or the closing brace. */
  function ReadMembers(t: Bytes, depth: nat, members: seq<Member>, toDouble: Bytes -> Option<real>): (r: Result)
    ensures r.Good? ==> |r.rest| < |t|
    decreases |t|, 2
  {
    var k := SkipComments(t);
    match k.kind
    case ObjectEnd => Good(Object(members), k.rest)
    case StringToken =>
      (match Decoded(Body(k.text))
       case None => Bad
       case Some(name) =>
         if |name| >= KEY_LIMIT then Thrown else
         var colon := ReadToken(k.rest);
         if colon.kind != MemberSeparator then Bad else
         match ReadValue(colon.rest, depth + 1, toDouble)
         case Good(v, rest) => AfterMember(rest, depth, Insert(members, name, v), toDouble)
         case other => other)
    case _ => Bad
  }

  /** After a member: a comma, a closing brace, or comments. After comments any one token
      passes for the comma, as the code never looks at it again. */
  function AfterMember(t: Bytes, depth: nat, members: seq<Member>, toDouble: Bytes -> Option<real>): (r: Result)
    ensures r.Good? ==> |r.rest| < |t|
    decreases |t|, 3
  {
    var comma := ReadToken(t);
    match comma.kind
    case ObjectEnd => Good(Object(members), comma.rest)
    case ArraySeparator => ReadMembers(comma.rest, depth, members, toDouble)
    case Comment =>
      var k := SkipComments(comma.rest);
      if k.kind == ObjectEnd then Good(Object(members), k.rest) else ReadMembers(k.rest, depth, members, toDouble)
    case _ => Bad
  }

  /** readArray, with `elements` read so far: expects a value or the closing bracket. */
  function ReadElements(t: Bytes, depth: nat, elements: seq<Value>, toDouble: Bytes -> Option<real>): (r: Result)
    ensures r.Good? ==> |r.rest| < |t|
    decreases |t|, 1
  {
    var u := SkipSpaces(t);
    if u != [] && u[0] == 93 then Good(Array(elements), u[1..]) else
    match ReadValue(u, depth + 1, toDouble)
    case Good(v, rest) =>
      var k := SkipComments(rest);
      if k.kind == ArrayEnd then Good(Array(elements + [v]), k.rest)
      else if k.kind == ArraySeparator then ReadElements(k.rest, depth, elements + [v], toDouble)
      else Bad
    case other => other
  }

  /** One turn of readArray's loop. */
  lemma ElementsTurn(t: Bytes, depth: nat, es: seq<Value>, toDouble: Bytes -> Option<real>)
    ensures
      var u, all := SkipSpaces(t), ReadElements(t, depth, es, toDouble);
      var item := ReadValue(u, depth + 1, toDouble);
      if u != [] && u[0] == 93 then all == Good(Array(es), u[1..])
      else if !item.Good? then all == item
      else
        var k, es' := SkipComments(item.rest), es + [item.value];
        all == if k.kind == ArrayEnd then Good(Array(es'), k.rest)
               else if k.kind == ArraySeparator then ReadElements(k.rest, depth, es', toDouble)
               else Bad
  {
    hide SkipSpaces, SkipComments, ReadValue;
  }

  const BOM: Bytes := [0xEF, 0xBB, 0xBF]

  /** parse: an optional byte order mark, one value, and the token after it, which is read
      and ignored. */
  function Parse(doc: Bytes, toDouble: Bytes -> Option<real>): Result {
    match ReadValue(if BOM <= doc then doc[3..] else doc, 1, toDouble)
    case Good(v, rest) => Good(v, SkipComments(rest).rest)
    case other => other
  }
}
