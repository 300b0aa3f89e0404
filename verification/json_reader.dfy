/** The reader as it runs: a cursor over the document, moved by loops, and a recursive
    descent that leaves the value it read in place of the current node. */
module JsonReader {
  import opened Bytes
  import opened JsonValue
  import opened JsonNumbers
  import opened JsonStrings
  import G = JsonGrammar

  /** A token as the reader keeps it: a kind and two places in the document. */
  datatype Token = Token(kind: G.Kind, start: nat, end: nat)

  /** readValue's outcome; `Thrown` is an exception that leaves the reader. */
  datatype Outcome = Read | Failed | Thrown

  lemma BodyIs(doc: Bytes, start: nat, end: nat)
    requires start + 2 <= end <= |doc|
    ensures Body(doc[start..end]) == doc[start + 1..end - 1]
  {
    var quoted, inner := doc[start..end], doc[start + 1..end - 1];
    forall i | 0 <= i < |inner| ensures Body(quoted)[i] == inner[i] {
      assert quoted[i + 1] == doc[start + 1 + i];
    }
  }

  /** getNextChar gives NUL at the end of the document, which reads as the end of the stream. */
  lemma LexAtEnd()
    ensures G.Lex(NUL, []) == (G.EndOfStream, [])
  {
  }

  class Reader {
    const doc: Bytes
    const toDouble: Bytes -> Option<real>
    var current: nat
    /** The size of the nodes_ stack. */
    var nodes: nat
    /** The value of the current node. */
    var value: Value

    ghost predicate Valid()
      reads this
    {
      current <= |doc|
    }

    /** The text left to read. */
    ghost function Rest(): Bytes
      reads this
      requires Valid()
    {
      doc[current..]
    }

    constructor (doc: Bytes, toDouble: Bytes -> Option<real>)
      ensures Valid() && this.doc == doc && this.toDouble == toDouble && current == 0 && nodes == 1
    {
      this.doc := doc;
      this.toDouble := toDouble;
      current := 0;
      nodes := 1;
      value := Null;
    }

    method GetNextChar() returns (c: byte)
      requires Valid()
      modifies `current
      ensures Valid()
      ensures if old(Rest()) == [] then c == NUL && Rest() == [] else c == old(Rest())[0] && Rest() == old(Rest())[1..]
    {
      if current == |doc| {
        return NUL;
      }
      c := doc[current];
      current := current + 1;
    }

    method SkipSpaces()
      requires Valid()
      modifies `current
      ensures Valid() && Rest() == G.SkipSpaces(old(Rest()))
    {
      while current != |doc| && G.IsSpace(doc[current])
        invariant Valid() && G.SkipSpaces(Rest()) == G.SkipSpaces(old(Rest()))
        decreases |doc| - current
      {
        assert Rest()[1..] == doc[current + 1..];
        current := current + 1;
      }
    }

    /** match. */
    method Match(pattern: Bytes) returns (ok: bool)
      requires Valid()
      modifies `current
      ensures Valid() && (ok, Rest()) == G.AfterPattern(old(Rest()), pattern)
    {
      if |doc| - current < |pattern| {
        return false;
      }
      var index := |pattern|;
      while index > 0
        invariant 0 <= index <= |pattern|
        invariant forall k :: index <= k < |pattern| ==> doc[current + k] == pattern[k]
      {
        index := index - 1;
        if doc[current + index] != pattern[index] {
          assert Rest()[index] != pattern[index];
          return false;
        }
      }
      assert Rest()[..|pattern|] == pattern;
      assert Rest()[|pattern|..] == doc[current + |pattern|..];
      current := current + |pattern|;
      return true;
    }

    /** readString. */
    method ReadString() returns (ok: bool)
      requires Valid()
      modifies `current
      ensures Valid() && (ok, Rest()) == ScanString(old(Rest()))
    {
      var c: byte := NUL;
      while current != |doc|
        invariant Valid() && c != QUOTE && ScanString(Rest()) == ScanString(old(Rest()))
        decreases |doc| - current
      {
        ghost var before := Rest();
        c := GetNextChar();
        if c == BACKSLASH {
          var hidden := GetNextChar();
        } else if c == QUOTE {
          break;
        }
      }
      ok := c == QUOTE;
    }

    /** One `c = (current_ = p) < end_ ? *p++ : '\0'` of readNumber. */
    method Fetch(p: nat) returns (c: byte, q: nat)
      requires p <= |doc|
      modifies `current
      ensures Valid() && current == p
      ensures if p < |doc| then c == doc[p] && q == p + 1 else c == NUL && q == p
    {
      current := p;
      if current < |doc| {
        c, q := doc[p], p + 1;
      } else {
        c, q := NUL, p;
      }
    }

    /** `c` is the byte under the cursor and `p` the place after it. */
    ghost predicate Fetched(c: byte, p: nat)
      reads this
    {
      Valid() && if current < |doc| then c == doc[current] && p == current + 1 else c == NUL && p == current
    }

    /** The digit loops of readNumber. */
    method FetchDigits(c0: byte, p0: nat) returns (c: byte, p: nat)
      requires p0 <= |doc| && IsDigit(c0)
      modifies `current
      ensures Fetched(c, p) && Rest() == G.SkipDigits(doc[p0..]) && !IsDigit(c)
    {
      c, p := c0, p0;
      while IsDigit(c)
        invariant p <= |doc|
        invariant IsDigit(c) ==> G.SkipDigits(doc[p..]) == G.SkipDigits(doc[p0..])
        invariant !IsDigit(c) ==> Fetched(c, p) && Rest() == G.SkipDigits(doc[p0..])
        decreases |doc| - p, if IsDigit(c) then 1 else 0
      {
        ghost var here := p;
        c, p := Fetch(p);
        if here < |doc| { assert doc[here..][1..] == doc[p..]; }
      }
    }

    /** Like FetchDigits, where there may be no digit at all. */
    method FetchMoreDigits(c0: byte, p0: nat) returns (c: byte, p: nat)
      requires Fetched(c0, p0)
      modifies `current
      ensures Fetched(c, p) && Rest() == G.SkipDigits(old(Rest())) && !IsDigit(c)
    {
      c, p := c0, p0;
      if IsDigit(c) {
        assert Rest()[1..] == doc[p0..];
        c, p := FetchDigits(c, p);
      }
    }

    /** The fractional part of readNumber. */
    method ReadFraction(c0: byte, p0: nat) returns (c: byte, p: nat)
      requires Fetched(c0, p0)
      modifies `current
      ensures Fetched(c, p) && Rest() == G.AfterFraction(old(Rest()))
    {
      hide G.SkipDigits;
      c, p := c0, p0;
      if c == DOT {
        assert Rest()[1..] == doc[p..];
        c, p := Fetch(p);
        c, p := FetchMoreDigits(c, p);
      }
    }

    /** The exponential part of readNumber. */
    method ReadExponent(c0: byte, p0: nat) returns (c: byte, p: nat)
      requires Fetched(c0, p0)
      modifies `current
      ensures Fetched(c, p) && Rest() == G.AfterExponent(old(Rest()))
    {
      hide G.SkipDigits;
      c, p := c0, p0;
      if c == 101 || c == 69 {
        ghost var t := Rest();
        c, p := Fetch(p);
        assert Rest() == t[1..] && (|t| > 1 ==> t[1] == c);
        if c == 43 || c == MINUS {
          c, p := Fetch(p);
          assert Rest() == t[2..];
        }
        c, p := FetchMoreDigits(c, p);
      }
    }

    method ReadNumber(checkInf: bool) returns (ok: bool)
      requires Valid()
      modifies `current
      ensures Valid()
      ensures var t := old(Rest());
              if checkInf && t != [] && t[0] == 73 then !ok && Rest() == t[1..] else ok && Rest() == G.AfterNumber(t)
    {
      hide G.SkipDigits, G.AfterFraction, G.AfterExponent;
      var p := current;
      if checkInf && p != |doc| && doc[p] == 73 {
        current := p + 1;
        return false;
      }
      var c: byte;
      c, p := FetchDigits(48, p);
      assert Rest() == G.SkipDigits(old(Rest()));
      ghost var t1 := Rest();
      c, p := ReadFraction(c, p);
      ghost var t2 := Rest();
      c, p := ReadExponent(c, p);
      assert Rest() == G.AfterExponent(t2);
      return true;
    }

    method ReadCStyleComment() returns (ok: bool)
      requires Valid()
      modifies `current
      ensures Valid() && (ok, Rest()) == G.AfterCStyle(old(Rest()))
    {
      while current + 1 < |doc|
        invariant Valid() && G.AfterCStyle(Rest()) == G.AfterCStyle(old(Rest()))
        decreases |doc| - current
      {
        ghost var before := Rest();
        var c := GetNextChar();
        if c == 42 && doc[current] == 47 {
          assert before[1] == doc[current] && before[1..] == Rest() && before[2..] == Rest()[1..];
          var slash := GetNextChar();
          return slash == 47;
        }
      }
      var c := GetNextChar();
      return c == 47;
    }

    method ReadCppStyleComment()
      requires Valid()
      modifies `current
      ensures Valid() && Rest() == G.AfterCppStyle(old(Rest()))
    {
      while current != |doc|
        invariant Valid() && G.AfterCppStyle(Rest()) == G.AfterCppStyle(old(Rest()))
        decreases |doc| - current
      {
        ghost var before := Rest();
        var c := GetNextChar();
        if c == LF {
          return;
        }
        if c == CR {
          if current != |doc| && doc[current] == LF {
            assert before[1] == LF && before[2..] == before[1..][1..];
            c := GetNextChar();
          } else {
            assert |before| > 1 ==> before[1] == doc[current];
          }
          return;
        }
      }
    }

    method ReadComment() returns (ok: bool)
      requires Valid()
      modifies `current
      ensures Valid() && (ok, Rest()) == G.AfterComment(old(Rest()))
    {
      var c := GetNextChar();
      if c == 42 {
        ok := ReadCStyleComment();
      } else if c == 47 {
        ReadCppStyleComment();
        ok := true;
      } else {
        ok := false;
      }
    }

    /** The switch of readToken, after its first character. */
    method ReadKind(c: byte) returns (kind: G.Kind)
      requires Valid()
      modifies `current
      ensures Valid() && (kind, Rest()) == G.Lex(c, old(Rest()))
    {
      var ok := true;
      if c == 123 {
        kind := G.ObjectBegin;
      } else if c == 125 {
        kind := G.ObjectEnd;
      } else if c == 91 {
        kind := G.ArrayBegin;
      } else if c == 93 {
        kind := G.ArrayEnd;
      } else if c == QUOTE {
        kind := G.StringToken;
        ok := ReadString();
      } else if c == 47 {
        kind := G.Comment;
        ok := ReadComment();
      } else if IsDigit(c) {
        kind := G.NumberToken;
        var inf := ReadNumber(false);
      } else if c == MINUS || c == 43 {
        kind := G.NumberToken;
        ok := ReadNumber(true);
      } else if c == 116 {
        kind := G.TrueToken;
        ok := Match(G.RUE);
      } else if c == 102 {
        kind := G.FalseToken;
        ok := Match(G.ALSE);
      } else if c == 110 {
        kind := G.NullToken;
        ok := Match(G.ULL);
      } else if c == COMMA {
        kind := G.ArraySeparator;
      } else if c == COLON {
        kind := G.MemberSeparator;
      } else if c == NUL {
        kind := G.EndOfStream;
      } else {
        kind := G.Error;
        ok := false;
      }
      if !ok {
        kind := G.Error;
      }
    }

    /** `k` is the token the grammar reads at `t`, and the cursor stands after it. */
    ghost predicate At(k: Token, spec: G.Token)
      reads this
    {
      Valid() && k.start <= k.end == current && k.kind == spec.kind && doc[k.start..k.end] == spec.text &&
        Rest() == spec.rest
    }

    method ReadToken() returns (k: Token)
      requires Valid()
      modifies `current
      ensures At(k, G.ReadToken(old(Rest())))
    {
      hide G.SkipSpaces, G.Lex;
      SkipSpaces();
      var start := current;
      ghost var u := Rest();
      var c := GetNextChar();
      var kind := ReadKind(c);
      k := Token(kind, start, current);
      if u == [] {
        LexAtEnd();
        assert Rest() == [];
      } else {
        assert doc[start..current] == u[..|u| - |Rest()|];
      }
    }

    method SkipCommentTokens() returns (k: Token)
      requires Valid()
      modifies `current
      ensures At(k, G.SkipComments(old(Rest())))
    {
      k := ReadToken();
      while k.kind == G.Comment
        invariant Valid() && k.start <= k.end == current
        invariant k.kind != G.Comment ==> At(k, G.SkipComments(old(Rest())))
        invariant k.kind == G.Comment ==> G.SkipComments(Rest()) == G.SkipComments(old(Rest()))
        decreases |doc| - current, if k.kind == G.Comment then 1 else 0
      {
        k := ReadToken();
      }
    }

    /** recoverFromError: skips to the given token or the end, and always reports failure. */
    method RecoverFromError(skipUntil: G.Kind)
      requires Valid()
      modifies `current
      ensures Valid()
    {
      var skip := ReadToken();
      while skip.kind != skipUntil && skip.kind != G.EndOfStream
        invariant Valid()
        decreases |doc| - current, if skip.kind != G.EndOfStream then 1 else 0
      {
        skip := ReadToken();
      }
    }

    /** What readValue and its helpers owe the grammar. */
    ghost predicate Delivers(r: Outcome, spec: G.Result)
      reads this
    {
      Valid() &&
      match spec
      case Good(v, rest) => r == Read && value == v && Rest() == rest
      case Bad => r == Failed
      case Thrown => r == Thrown
    }

    /** decodeNumber on the current node. */
    method TakeNumber(k: Token) returns (r: Outcome)
      requires Valid() && k.start < k.end == current
      modifies `value
      ensures Delivers(r, G.NumberValue(doc[k.start..k.end], Rest(), toDouble))
    {
      var decoded := DecodeNumber(doc[k.start..k.end]);
      match decoded {
        case Some(v) => value := v; return Read;
        case None =>
          match toDouble(doc[k.start..k.end]) {
            case Some(d) => value := Real(d); return Read;
            case None => return Failed;
          }
      }
    }

    method TakeString(k: Token) returns (r: Outcome, s: Bytes)
      requires Valid() && k.start + 2 <= k.end == current
      ensures match Decoded(Body(doc[k.start..k.end]))
              case None => r == Failed
              case Some(text) => r == Read && s == text
    {
      BodyIs(doc, k.start, k.end);
      var decoded := DecodeString(doc[k.start + 1..k.end - 1]);
      match decoded {
        case None => return Failed, [];
        case Some(text) => return Read, text;
      }
    }

    method ReadValue() returns (r: Outcome)
      requires Valid()
      modifies this
      ensures Delivers(r, G.ReadValue(old(Rest()), old(nodes), toDouble))
      ensures r != Thrown ==> nodes == old(nodes)
      decreases |doc| - current, 0
    {
      hide G.SkipComments, G.ReadMembers, G.ReadElements, G.NumberValue, Decoded;
      if nodes > G.STACK_LIMIT {
        return Thrown;
      }
      var k := SkipCommentTokens();
      match k.kind {
        case ObjectBegin => r := ReadObject();
        case ArrayBegin => r := ReadArray();
        case NumberToken => r := TakeNumber(k);
        case StringToken =>
          var s;
          r, s := TakeString(k);
          if r == Read {
            if |s| > G.STRING_LIMIT {
              return Thrown;
            }
            value := Str(s);
          }
        case TrueToken => value := Bool(true); r := Read;
        case FalseToken => value := Bool(false); r := Read;
        case NullToken => value := Null; r := Read;
        case _ => r := Failed;
      }
    }

    method ReadObject() returns (r: Outcome)
      requires Valid()
      modifies this
      ensures Delivers(r, G.ReadMembers(old(Rest()), old(nodes), [], toDouble))
      ensures r != Thrown ==> nodes == old(nodes)
      decreases |doc| - current, 2
    {
      hide G.SkipComments, G.ReadToken, G.ReadValue, G.Insert, Decoded;
      var members: seq<Member> := [];
      ghost var goal := G.ReadMembers(Rest(), nodes, [], toDouble);
      ghost var depth := nodes;
      while true
        invariant Valid() && nodes == depth == old(nodes) && current >= old(current)
        invariant G.ReadMembers(Rest(), depth, members, toDouble) == goal
        decreases |doc| - current
      {
        var tokenName := SkipCommentTokens();
        if tokenName.kind == G.ObjectEnd {
          value := Object(members);
          return Read;
        }
        if tokenName.kind != G.StringToken {
          RecoverFromError(G.ObjectEnd);
          return Failed;
        }
        var name;
        r, name := TakeString(tokenName);
        if r == Failed {
          RecoverFromError(G.ObjectEnd);
          return Failed;
        }
        if |name| >= G.KEY_LIMIT {
          return Thrown;
        }
        r := TakeMember();
        if r != Read {
          return r;
        }
        members := G.Insert(members, name, value);
        var comma := ReadToken();
        if comma.kind != G.ObjectEnd && comma.kind != G.ArraySeparator && comma.kind != G.Comment {
          RecoverFromError(G.ObjectEnd);
          return Failed;
        }
        if comma.kind == G.Comment {
          comma := SkipCommentTokens();
        }
        if comma.kind == G.ObjectEnd {
          value := Object(members);
          return Read;
        }
      }
    }

    /** The colon and the value of a member. */
    method TakeMember() returns (r: Outcome)
      requires Valid()
      modifies this
      ensures Valid() && (r == Read ==> current >= old(current))
      ensures var colon := G.ReadToken(old(Rest()));
              if colon.kind == G.MemberSeparator then Delivers(r, G.ReadValue(colon.rest, old(nodes) + 1, toDouble))
                else r == Failed
      ensures r != Thrown ==> nodes == old(nodes)
      decreases |doc| - current, 1
    {
      hide G.ReadToken, G.ReadValue;
      var colon := ReadToken();
      if colon.kind != G.MemberSeparator {
        RecoverFromError(G.ObjectEnd);
        return Failed;
      }
      nodes := nodes + 1;
      r := ReadValue();
      if r == Thrown {
        return Thrown;
      }
      nodes := nodes - 1;
      if r == Failed {
        RecoverFromError(G.ObjectEnd);
      }
    }

    method ReadArray() returns (r: Outcome)
      requires Valid()
      modifies this
      ensures Delivers(r, G.ReadElements(old(Rest()), old(nodes), [], toDouble))
      ensures r != Thrown ==> nodes == old(nodes)
      decreases |doc| - current, 1
    {
      hide G.SkipComments, G.SkipSpaces, G.ReadValue, G.ReadElements;
      var elements: seq<Value> := [];
      ghost var goal := G.ReadElements(Rest(), nodes, [], toDouble);
      ghost var depth := nodes;
      while true
        invariant Valid() && nodes == depth == old(nodes) && current >= old(current)
        invariant G.ReadElements(Rest(), depth, elements, toDouble) == goal
        decreases |doc| - current
      {
        G.ElementsTurn(Rest(), depth, elements, toDouble);
        SkipSpaces();
        if current != |doc| && doc[current] == 93 {
          var bracket := GetNextChar();
          value := Array(elements);
          return Read;
        }
        nodes := nodes + 1;
        r := ReadValue();
        if r == Thrown {
          return Thrown;
        }
        nodes := nodes - 1;
        if r == Failed {
          RecoverFromError(G.ArrayEnd);
          return Failed;
        }
        elements := elements + [value];
        var next := SkipCommentTokens();
        if next.kind != G.ArraySeparator && next.kind != G.ArrayEnd {
          RecoverFromError(G.ArrayEnd);
          return Failed;
        }
        if next.kind == G.ArrayEnd {
          value := Array(elements);
          return Read;
        }
      }
    }

    /** parse: true with the value read, or false. */
    method Parse() returns (r: Outcome)
      requires Valid() && current == 0 && nodes == 1
      modifies this
      ensures Delivers(r, G.Parse(doc, toDouble))
    {
      hide G.SkipComments, G.ReadValue;
      if |doc| >= 3 && doc[0] == 0xEF && doc[1] == 0xBB && doc[2] == 0xBF {
        assert doc[..3] == G.BOM;
        current := 3;
      } else {
        assert Rest() == doc;
      }
      r := ReadValue();
      if r == Read {
        ghost var v := value;
        var k := SkipCommentTokens();
      }
    }
  }
}
