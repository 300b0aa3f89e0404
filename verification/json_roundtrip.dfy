/** Reading back what the writer wrote. */
module JsonRoundTrip {
  import opened Bytes
  import opened Decimals
  import opened JsonValue
  import opened JsonNumbers
  import opened JsonStrings
  import opened JsonGrammar
  import opened JsonText

  // ----- which values, and what becomes of them

  /** A fraction of a JSON number, or nothing. */
  ghost predicate IsFraction(t: Bytes) {
    t == [] || (|t| > 1 && t[0] == DOT && AllDigits(t[1..]))
  }

  /** The sign of an exponent, or nothing. */
  ghost predicate IsSign(t: Bytes) {
    t == [] || t == [43] || t == [MINUS]
  }

  /** An exponent of a JSON number, or nothing. */
  ghost predicate IsExponent(t: Bytes) {
    t == [] ||
    exists sign, ds :: IsSign(sign) && ds != [] && AllDigits(ds) && (t == [101] + sign + ds || t == [69] + sign + ds)
  }

  ghost predicate IsDouble(text: Bytes, sign: Bytes, whole: Bytes, fraction: Bytes, exponent: Bytes) {
    && text == sign + (whole + (fraction + exponent)) && (sign == [] || sign == [MINUS])
    && whole != [] && AllDigits(whole) && IsFraction(fraction) && IsExponent(exponent)
    && (fraction != [] || exponent != [])
  }

  /** A JSON number, section 6 of RFC 8259, with a fraction or an exponent. */
  ghost predicate DoubleText(text: Bytes) {
    exists sign, whole, fraction, exponent :: IsDouble(text, sign, whole, fraction, exponent)
  }

  /** Each double prints as such a number, which the stream operator reads as that double. */
  ghost predicate DoublesReadBack(v: Value, st: Style, toDouble: Bytes -> Option<real>) {
    match v
    case Real(r) => DoubleText(st.ofReal(r)) && toDouble(st.ofReal(r)) == Some(r)
    case Array(es) => forall k :: 0 <= k < |es| ==> DoublesReadBack(es[k], st, toDouble)
    case Object(ms) => forall k :: 0 <= k < |ms| ==> DoublesReadBack(ms[k].value, st, toDouble)
    case _ => true
  }

  /** A value that the library can hold, with doubles that their printed text gives back. Its
      objects' members need not even be in key order. */
  ghost predicate Printable(v: Value, st: Style, toDouble: Bytes -> Option<real>) {
    IntegersFit(v) && DoublesReadBack(v, st, toDouble)
  }

  /** The value that comes back: an unsigned integer that a signed one could hold is signed,
      strings are repaired, and members are inserted again under their repaired keys. */
  function Restored(v: Value): Value
    decreases v, 0
  {
    match v
    case UInt(u) => if u <= MAX_INT then Int(u) else v
    case Str(s) => Str(Repaired(s))
    case Array(es) => Array(RestoredAll(es))
    case Object(ms) => Object(Inserted([], ms))
    case _ => v
  }

  function RestoredAll(es: seq<Value>): (r: seq<Value>)
    ensures |r| == |es| && forall k :: 0 <= k < |es| ==> r[k] == Restored(es[k])
    decreases es, 1
  {
    if es == [] then [] else [Restored(es[0])] + RestoredAll(es[1..])
  }

  function Inserted(done: seq<Member>, ms: seq<Member>): seq<Member>
    decreases ms, 1
  {
    if ms == [] then done else Inserted(Insert(done, Repaired(ms[0].key), Restored(ms[0].value)), ms[1..])
  }

  /** The reader's limits, for a value read while `depth - 1` others are open. */
  ghost predicate Accepted(v: Value, depth: nat)
    decreases v, 0
  {
    depth <= STACK_LIMIT &&
    match v
    case Str(s) => |Repaired(s)| <= STRING_LIMIT
    case Array(es) => ElementsAccepted(es, depth + 1)
    case Object(ms) => MembersAccepted(ms, depth + 1)
    case _ => true
  }

  ghost predicate ElementsAccepted(es: seq<Value>, depth: nat)
    decreases es, 1
  {
    es == [] || (Accepted(es[0], depth) && ElementsAccepted(es[1..], depth))
  }

  ghost predicate MembersAccepted(ms: seq<Member>, depth: nat)
    decreases ms, 1
  {
    ms == [] || (|Repaired(ms[0].key)| < KEY_LIMIT && Accepted(ms[0].value, depth) && MembersAccepted(ms[1..], depth))
  }

  ghost predicate AllSpace(s: Bytes) {
    forall k :: 0 <= k < |s| ==> IsSpace(s[k])
  }

  /** Text after which a number cannot go on. */
  ghost predicate Delimited(t: Bytes) {
    t == [] || !(IsDigit(t[0]) || t[0] == DOT || t[0] == 101 || t[0] == 69)
  }

  // ----- tokens

  lemma {:induction false} SpacesSkipped(sp: Bytes, t: Bytes)
    requires AllSpace(sp)
    ensures SkipSpaces(sp + t) == SkipSpaces(t)
  {
    if sp == [] {
      assert sp + t == t;
    } else {
      SpacesSkipped(sp[1..], t);
      assert (sp + t)[1..] == sp[1..] + t;
    }
  }

  /** Leading spaces change nothing the reader does. */
  lemma {:induction false} SpacesToken(sp: Bytes, t: Bytes)
    requires AllSpace(sp)
    ensures SkipSpaces(sp + t) == SkipSpaces(t) && ReadToken(sp + t) == ReadToken(t) &&
            SkipComments(sp + t) == SkipComments(t)
  {
    SpacesSkipped(sp, t);
    hide Lex, SkipSpaces;
    assert ReadToken(sp + t) == ReadToken(t);
    hide ReadToken;
  }

  lemma {:induction false} SpacesValue(sp: Bytes, t: Bytes, depth: nat, toDouble: Bytes -> Option<real>)
    requires AllSpace(sp)
    ensures ReadValue(sp + t, depth, toDouble) == ReadValue(t, depth, toDouble)
  {
    hide SkipComments, ReadMembers, ReadElements;
    SpacesToken(sp, t);
  }

  lemma {:induction false} SpacesMembers(sp: Bytes, t: Bytes, depth: nat, ms: seq<Member>,
          toDouble: Bytes -> Option<real>)
    requires AllSpace(sp)
    ensures ReadMembers(sp + t, depth, ms, toDouble) == ReadMembers(t, depth, ms, toDouble)
  {
    hide SkipComments, AfterMember, ReadValue;
    SpacesToken(sp, t);
  }

  lemma {:induction false} SpacesElements(sp: Bytes, t: Bytes, depth: nat, es: seq<Value>,
          toDouble: Bytes -> Option<real>)
    requires AllSpace(sp)
    ensures ReadElements(sp + t, depth, es, toDouble) == ReadElements(t, depth, es, toDouble)
  {
    SpacesSkipped(sp, t);
    hide SkipComments, ReadValue, SkipSpaces, AllSpace, ReadElements;
    ElementsTurn(sp + t, depth, es, toDouble);
    ElementsTurn(t, depth, es, toDouble);
  }

  lemma {:induction false} TokenText(u: Bytes, text: Bytes, rest: Bytes)
    requires u == text + rest && text != [] && !IsSpace(text[0])
    requires Lex(u[0], u[1..]).1 == rest
    ensures ReadToken(u) == Token(Lex(u[0], u[1..]).0, text, rest)
  {
    assert u[..|u| - |rest|] == text;
  }

  /** A punctuation mark is a token of its own. */
  lemma {:induction false} MarkRead(c: byte, kind: Kind, rest: Bytes)
    requires (c, kind) in {(91, ArrayBegin), (93, ArrayEnd), (123, ObjectBegin), (125, ObjectEnd),
                            (COMMA, ArraySeparator), (COLON, MemberSeparator)}
    ensures ReadToken([c] + rest) == Token(kind, [c], rest)
  {
    MarkLexed(c, kind, rest);
    hide Lex, ReadToken;
    TokenText([c] + rest, [c], rest);
  }

  lemma MarkLexed(c: byte, kind: Kind, rest: Bytes)
    requires (c, kind) in {(91, ArrayBegin), (93, ArrayEnd), (123, ObjectBegin), (125, ObjectEnd),
                            (COMMA, ArraySeparator), (COLON, MemberSeparator)}
    ensures Lex(c, rest) == (kind, rest) && !IsSpace(c)
  {
    hide ScanString, AfterNumber, AfterComment, AfterPattern;
  }

  lemma {:induction false} StringTokenRead(s: Bytes, rest: Bytes)
    ensures ReadToken(Quoted(s) + rest) == Token(StringToken, Quoted(s), rest)
  {
    var u := Quoted(s) + rest;
    ScanQuoted(s, rest);
    assert u[1..] == Quoted(s)[1..] + rest;
    TokenText(u, Quoted(s), rest);
  }

  lemma {:induction false} DigitsSkipped(ds: Bytes, rest: Bytes)
    requires AllDigits(ds) && (rest == [] || !IsDigit(rest[0]))
    ensures SkipDigits(ds + rest) == rest
  {
    if ds == [] {
      assert ds + rest == rest;
    } else {
      DigitsSkipped(ds[1..], rest);
      assert (ds + rest)[1..] == ds[1..] + rest;
    }
  }

  lemma {:induction false} IntTokenRead(i: int, rest: Bytes)
    requires Delimited(rest)
    ensures ReadToken(IntText(i) + rest) == Token(NumberToken, IntText(i), rest)
  {
    hide Lex, ReadToken, SkipDigits, Delimited;
    var text := IntText(i);
    var u := text + rest;
    assert u[1..] == text[1..] + rest;
    IntDigits(i);
    assert rest == [] || !IsDigit(rest[0]) by { NoDigit(rest); }
    DigitsSkipped(text[1..], rest);
    NumberEnds(text[1..] + rest, rest);
    if i < 0 { assert u[1] == text[1]; }
    LexNumber(u[0], u[1..]);
    TokenText(u, text, rest);
  }

  lemma NoDigit(rest: Bytes)
    requires Delimited(rest)
    ensures rest == [] || !IsDigit(rest[0])
  {
  }

  lemma FractionSkipped(fraction: Bytes, rest: Bytes)
    requires IsFraction(fraction) && (rest == [] || !(IsDigit(rest[0]) || rest[0] == DOT))
    ensures AfterFraction(fraction + rest) == rest
  {
    hide SkipDigits;
    if fraction == [] {
      assert fraction + rest == rest;
    } else {
      assert (fraction + rest)[1..] == fraction[1..] + rest;
      DigitsSkipped(fraction[1..], rest);
    }
  }

  lemma ExponentSkipped(exponent: Bytes, rest: Bytes)
    requires IsExponent(exponent) && Delimited(rest)
    ensures AfterExponent(exponent + rest) == rest
  {
    hide AfterExponent, Delimited;
    if exponent == [] {
      assert exponent + rest == rest;
      NoExponent(rest);
    } else {
      var sign, ds :| IsSign(sign) && ds != [] && AllDigits(ds) &&
                      (exponent == [101] + sign + ds || exponent == [69] + sign + ds);
      SignedDigitsSkipped(exponent[0], sign, ds, rest);
      assert exponent + rest == [exponent[0]] + (sign + (ds + rest));
    }
  }

  lemma NoExponent(rest: Bytes)
    requires Delimited(rest)
    ensures AfterExponent(rest) == rest
  {
  }

  lemma SignedDigitsSkipped(e: byte, sign: Bytes, ds: Bytes, rest: Bytes)
    requires (e == 101 || e == 69) && IsSign(sign) && ds != [] && AllDigits(ds) && Delimited(rest)
    ensures AfterExponent([e] + (sign + (ds + rest))) == rest
  {
    hide SkipDigits, AllDigits;
    var more := ds + rest;
    assert IsDigit(more[0]) && SkipDigits(more) == rest by { DigitsFirst(ds, rest); }
    if sign == [] {
      assert [e] + ([] + more) == [e] + more;
      NoSign(e, more);
    } else {
      assert [e] + (sign + more) == [e, sign[0]] + more;
      OneSign(e, sign[0], more);
    }
  }

  lemma DigitsFirst(ds: Bytes, rest: Bytes)
    requires ds != [] && AllDigits(ds) && Delimited(rest)
    ensures IsDigit((ds + rest)[0]) && SkipDigits(ds + rest) == rest
  {
    hide SkipDigits;
    DigitsSkipped(ds, rest);
  }

  lemma NoSign(e: byte, more: Bytes)
    requires (e == 101 || e == 69) && more != [] && IsDigit(more[0])
    ensures AfterExponent([e] + more) == SkipDigits(more)
  {
    hide SkipDigits;
    var t := [e] + more;
    assert t[1..] == more && t[1] == more[0];
  }

  lemma OneSign(e: byte, sign: byte, more: Bytes)
    requires (e == 101 || e == 69) && (sign == 43 || sign == MINUS)
    ensures AfterExponent([e, sign] + more) == SkipDigits(more)
  {
    hide SkipDigits;
    var t := [e, sign] + more;
    assert t[2..] == more && t[1] == sign;
  }

  /** The three greedy parts of readNumber take the whole of the number and no more. */
  lemma DoubleSkipped(whole: Bytes, fraction: Bytes, exponent: Bytes, rest: Bytes)
    requires AllDigits(whole) && IsFraction(fraction) && IsExponent(exponent) && Delimited(rest)
    ensures AfterNumber(whole + (fraction + (exponent + rest))) == rest
  {
    hide SkipDigits, AfterFraction, AfterExponent;
    DigitsSkipped(whole, fraction + (exponent + rest));
    FractionSkipped(fraction, exponent + rest);
    ExponentSkipped(exponent, rest);
  }

  lemma {:induction false} DigitsOnly(value: nat, ds: Bytes, threshold: nat, maxLast: nat)
    requires !AllDigits(ds)
    ensures DigitLoop(value, ds, threshold, maxLast) == None
    decreases |ds|
  {
    if ds != [] && IsDigit(ds[0]) && !AllDigits(ds[1..]) {
      DigitsOnly(value * 10 + (ds[0] - 48), ds[1..], threshold, maxLast);
    }
  }

  lemma {:induction false} DoubleTokenRead(text: Bytes, rest: Bytes)
    requires DoubleText(text) && Delimited(rest)
    ensures text != [] && ReadToken(text + rest) == Token(NumberToken, text, rest) && DecodeInt(text) == None
  {
    hide Lex, ReadToken, SkipDigits, Delimited, AfterNumber, IsDouble, DigitLoop, DecodeInt;
    var sign, whole, fraction, exponent :| IsDouble(text, sign, whole, fraction, exponent);
    DoubleIsNoInt(text, sign, whole, fraction, exponent);
    DoubleRest(text, sign, whole, fraction, exponent, rest);
    var u := text + rest;
    LexNumber(u[0], u[1..]);
    TokenText(u, text, rest);
  }

  lemma DoubleIsNoInt(text: Bytes, sign: Bytes, whole: Bytes, fraction: Bytes, exponent: Bytes)
    requires IsDouble(text, sign, whole, fraction, exponent)
    ensures text != [] && DecodeInt(text) == None
  {
    hide IsFraction, IsExponent, DigitLoop, AllDigits;
    var ds := whole + (fraction + exponent);
    PointOrExponent(fraction, exponent);
    NotDigits(whole, fraction + exponent);
    DigitsOnly(0, ds, (MAX_INT + 1) / 10, (MAX_INT + 1) % 10);
    DigitsOnly(0, ds, MAX_UINT / 10, MAX_UINT % 10);
    if sign == [] {
      assert text == ds && text[0] == whole[0];
      assert IsDigit(whole[0]) by { FirstIsDigit(whole); }
    } else {
      assert text[1..] == ds;
    }
  }

  lemma FirstIsDigit(ds: Bytes)
    requires ds != [] && AllDigits(ds)
    ensures IsDigit(ds[0])
  {
  }

  /** After its first character the number reads to its end. */
  lemma DoubleRest(text: Bytes, sign: Bytes, whole: Bytes, fraction: Bytes, exponent: Bytes, rest: Bytes)
    requires IsDouble(text, sign, whole, fraction, exponent) && Delimited(rest)
    ensures text != [] && AfterNumber((text + rest)[1..]) == rest && !IsSpace(text[0])
    ensures IsDigit(text[0]) || (text[0] == MINUS && |text| > 1 && IsDigit(text[1]))
  {
    hide IsFraction, IsExponent, AfterNumber, Delimited;
    var u, t := text + rest, fraction + (exponent + rest);
    assert u == sign + (whole + t);
    if sign == [] {
      DoubleSkipped(whole[1..], fraction, exponent, rest);
      assert u[1..] == whole[1..] + t && text[0] == whole[0];
    } else {
      DoubleSkipped(whole, fraction, exponent, rest);
      assert u[1..] == whole + t && text[1] == whole[0];
    }
  }

  lemma PointOrExponent(fraction: Bytes, exponent: Bytes)
    requires IsFraction(fraction) && IsExponent(exponent) && (fraction != [] || exponent != [])
    ensures fraction + exponent != [] && !IsDigit((fraction + exponent)[0])
  {
  }

  lemma NotDigits(whole: Bytes, more: Bytes)
    requires more != [] && !IsDigit(more[0])
    ensures !AllDigits(whole + more)
  {
    assert (whole + more)[|whole|] == more[0];
  }

  lemma IntDigits(i: int)
    ensures var text := IntText(i);
            text != [] && AllDigits(text[1..]) && !IsSpace(text[0]) &&
            (IsDigit(text[0]) || (text[0] == MINUS && |text| > 1))
  {
  }

  lemma NumberEnds(t: Bytes, rest: Bytes)
    requires SkipDigits(t) == rest && Delimited(rest)
    ensures AfterNumber(t) == rest
  {
    hide SkipDigits;
  }

  lemma LexNumber(c: byte, t: Bytes)
    requires IsDigit(c) || (c == MINUS && t != [] && IsDigit(t[0]))
    ensures Lex(c, t) == (NumberToken, AfterNumber(t))
  {
    hide AfterNumber, AfterComment, ScanString, AfterPattern;
  }

  lemma {:induction false} WordTokenRead(v: Value, st: Style, indent: Bytes, rest: Bytes)
    requires v.Null? || v.Bool?
    ensures ReadToken(ValueText(v, st, indent, true) + rest)
         == Token(if v.Null? then NullToken else if v.b then TrueToken
                  else FalseToken, ValueText(v, st, indent, true), rest)
  {
    var text := ValueText(v, st, indent, true);
    var u := text + rest;
    assert u[1..] == text[1..] + rest;
    assert text[1..] == if v.Null? then ULL else if v.b then RUE else ALSE;
    TokenText(u, text, rest);
  }

  // ----- values

  /** A scalar's own token decides the value. */
  lemma {:induction false} ScalarToken(t: Bytes, depth: nat, toDouble: Bytes -> Option<real>)
    requires depth <= STACK_LIMIT
    ensures var k := ReadToken(t); var r := ReadValue(t, depth, toDouble);
            && (k.kind == NumberToken ==> r == NumberValue(k.text, k.rest, toDouble))
            && (k.kind == StringToken && Decoded(Body(k.text)).Some? ==>
                  r == if |Decoded(Body(k.text)).value| > STRING_LIMIT then Thrown
                       else Good(Str(Decoded(Body(k.text)).value), k.rest))
            && (k.kind == NullToken ==> r == Good(Null, k.rest))
            && (k.kind == TrueToken ==> r == Good(Bool(true), k.rest))
            && (k.kind == FalseToken ==> r == Good(Bool(false), k.rest))
  {
    hide Lex, ReadToken, ReadMembers, ReadElements, Decoded, DecodeInt, NumberValue;
  }

  lemma {:induction false} ScalarReads(v: Value, st: Style, indent: Bytes, indented: bool, rest: Bytes, depth: nat,
          toDouble: Bytes -> Option<real>)
    requires Printable(v, st, toDouble) && !v.Array? && !v.Object? && Delimited(rest) && depth <= STACK_LIMIT
    ensures ReadValue(ValueText(v, st, indent, indented) + rest, depth, toDouble) ==
            if Accepted(v, depth) then Good(Restored(v), rest) else Thrown
  {
    hide Lex, ReadToken, ReadValue, Decoded, DecodeInt, Quoted, IntText, Digits, WellFormed, Delimited, Repaired;
    ScalarToken(ValueText(v, st, indent, indented) + rest, depth, toDouble);
    match v
    case Int(i) => IntTokenRead(i, rest); PrintThenDecode(i);
    case UInt(u) => IntTokenRead(u, rest); PrintThenDecode(u); NonNegative(u);
    case Real(r) => DoubleTokenRead(st.ofReal(r), rest);
    case Str(s) => StringTokenRead(s, rest); StringRoundTrip(s);
    case _ => WordTokenRead(v, st, indent, rest);
  }

  lemma NonNegative(u: nat)
    ensures IntText(u) == Digits(u)
  {
  }

  lemma Regroup3(a: Bytes, b: Bytes, c: Bytes, r: Bytes)
    ensures a + b + c + r == a + (b + (c + r))
  {
  }

  lemma Regroup5(a: Bytes, b: Bytes, c: Bytes, d: Bytes, e: Bytes, r: Bytes)
    ensures a + b + c + d + e + r == a + (b + (c + (d + (e + r))))
  {
    Regroup3(a, b, c, d + (e + r));
    assert a + b + c + d + e + r == a + b + c + (d + (e + r));
  }

  /** Reading an array or an object that opens at `t`, after any spaces. */
  lemma {:induction false} OpenReads(sp: Bytes, open: byte, t: Bytes, depth: nat, toDouble: Bytes -> Option<real>)
    requires AllSpace(sp) && depth <= STACK_LIMIT && open in {91, 123}
    ensures ReadValue(sp + ([open] + t), depth, toDouble)
         == if open == 91 then ReadElements(t, depth, [], toDouble) else ReadMembers(t, depth, [], toDouble)
  {
    hide Lex, ReadToken, ReadMembers, ReadElements, Decoded, NumberValue, SkipSpaces;
    SpacesToken(sp, [open] + t);
    MarkRead(open, if open == 91 then ArrayBegin else ObjectBegin, t);
  }

  /** The text of a value, inside any document: the value restored, and exactly the rest of the
      text; or the reader's exception, if the value is past its limits. */
  lemma {:induction false} ValueReads(v: Value, st: Style, indent: Bytes, indented: bool, rest: Bytes, depth: nat,
          toDouble: Bytes -> Option<real>)
    requires Printable(v, st, toDouble) && AllSpace(st.indentation) && AllSpace(indent) && Delimited(rest)
    ensures ReadValue(ValueText(v, st, indent, indented) + rest, depth, toDouble) ==
            if Accepted(v, depth) then Good(Restored(v), rest) else Thrown
    decreases v, 0
  {
    hide ReadElements, ReadMembers, SkipComments;
    if depth <= STACK_LIMIT {
      hide ReadValue;
      if v.Array? {
        ArrayReads(v.elements, st, indent, indented, rest, depth, toDouble);
      } else if v.Object? {
        ObjectReads(v.members, st, indent, indented, rest, depth, toDouble);
      } else {
        ScalarReads(v, st, indent, indented, rest, depth, toDouble);
      }
    }
  }

  lemma {:induction false} ArrayReads(es: seq<Value>, st: Style, indent: Bytes, indented: bool, rest: Bytes,
          depth: nat, toDouble: Bytes -> Option<real>)
    requires (forall k :: 0 <= k < |es| ==> Printable(es[k], st, toDouble)) && AllSpace(st.indentation) &&
             AllSpace(indent)
    requires depth <= STACK_LIMIT
    ensures ReadValue(ValueText(Array(es), st, indent, indented) + rest, depth, toDouble) ==
            if ElementsAccepted(es, depth + 1) then Good(Array(RestoredAll(es)), rest) else Thrown
    decreases es, 2
  {
    hide ReadValue, ReadElements, ReadMembers, ElementsText;
    if es == [] {
      EmptyReads(91, rest, depth, toDouble);
    } else {
      var brk := if indented then [] else Break(st, indent);
      var body := ElementsText(es, st, indent);
      ElementsRead(es, [], st, indent, rest, depth, toDouble);
      assert [] + RestoredAll(es) == RestoredAll(es);
      OpenReads(brk, 91, body + rest, depth, toDouble);
      Regroup3(brk, [91], body, rest);
    }
  }

  lemma {:induction false} ObjectReads(ms: seq<Member>, st: Style, indent: Bytes, indented: bool, rest: Bytes,
          depth: nat, toDouble: Bytes -> Option<real>)
    requires (forall k :: 0 <= k < |ms| ==> Printable(ms[k].value, st, toDouble)) && AllSpace(st.indentation) &&
             AllSpace(indent)
    requires depth <= STACK_LIMIT
    ensures ReadValue(ValueText(Object(ms), st, indent, indented) + rest, depth, toDouble) ==
            if MembersAccepted(ms, depth + 1) then Good(Object(Inserted([], ms)), rest) else Thrown
    decreases ms, 2
  {
    hide ReadValue, ReadElements, ReadMembers, MembersText;
    if ms == [] {
      EmptyReads(123, rest, depth, toDouble);
    } else {
      var brk := if indented then [] else Break(st, indent);
      var body := MembersText(ms, st, indent);
      MembersRead(ms, [], st, indent, rest, depth, toDouble);
      OpenReads(brk, 123, body + rest, depth, toDouble);
      Regroup3(brk, [123], body, rest);
    }
  }

  lemma {:induction false} EmptyReads(open: byte, rest: Bytes, depth: nat, toDouble: Bytes -> Option<real>)
    requires depth <= STACK_LIMIT && open in {91, 123}
    ensures ReadValue([open, open + 2] + rest, depth, toDouble) ==
            Good(if open == 91 then Array([]) else Object([]), rest)
  {
    hide Lex, ReadToken, ReadValue;
    var t := [open + 2] + rest;
    OpenReads([], open, t, depth, toDouble);
    assert [open, open + 2] + rest == [] + ([open] + t);
    MarkRead(open + 2, if open == 91 then ArrayEnd else ObjectEnd, rest);
    assert open == 91 ==> SkipSpaces(t) == t;
  }

  // ----- elements

  /** One element, then its comma or the closing bracket. */
  lemma {:induction false} ElementStep(t: Bytes, r: Result, depth: nat, done: seq<Value>,
                                       toDouble: Bytes -> Option<real>)
    requires t != [] && !IsSpace(t[0]) && t[0] != 93 && ReadValue(t, depth + 1, toDouble) == r && !r.Bad?
    ensures var whole := ReadElements(t, depth, done, toDouble);
            if r.Thrown? then whole == Thrown
            else
              var next := SkipComments(r.rest);
              && (next.kind == ArrayEnd ==> whole == Good(Array(done + [r.value]), next.rest))
              && (next.kind == ArraySeparator ==> whole == ReadElements(next.rest, depth, done + [r.value], toDouble))
  {
    hide Lex, ReadToken, SkipComments, ReadValue;
    assert SkipSpaces(t) == t;
  }

  /** What follows an element in its array's text. */
  function AfterElement(es: seq<Value>, st: Style, indent: Bytes): Bytes
    requires es != []
  {
    if |es| == 1 then Break(st, indent) + [93] else [COMMA] + ElementsText(es[1..], st, indent)
  }

  lemma {:induction false} ElementHead(es: seq<Value>, done: seq<Value>, st: Style, indent: Bytes, rest: Bytes,
          r: Result, depth: nat, toDouble: Bytes -> Option<real>)
    requires es != [] && Printable(es[0], st, toDouble) && AllSpace(st.indentation) && AllSpace(indent)
    requires r == ReadValue(ValueText(es[0], st, indent + st.indentation, true) + (AfterElement(es, st, indent) + rest),
                            depth + 1, toDouble)
    requires r == Thrown || (r.Good? && r.rest == AfterElement(es, st, indent) + rest)
    ensures var next := SkipComments(AfterElement(es, st, indent) + rest);
            var whole := ReadElements(ElementsText(es, st, indent) + rest, depth, done, toDouble);
            if r.Thrown? then whole == Thrown
            else
              && (next.kind == ArrayEnd ==> whole == Good(Array(done + [r.value]), next.rest))
              && (next.kind == ArraySeparator ==> whole == ReadElements(next.rest, depth, done + [r.value], toDouble))
  {
    hide Lex, ReadToken, SkipComments, ReadValue, ReadElements, ValueText, Printable;
    var inner, last := indent + st.indentation, AfterElement(es, st, indent);
    var first := ValueText(es[0], st, inner, true);
    Regroup3(Break(st, inner), first, last, rest);
    SpacesElements(Break(st, inner), first + (last + rest), depth, done, toDouble);
    FirstByte(es[0], st, inner, last + rest, toDouble);
    ElementStep(first + (last + rest), r, depth, done, toDouble);
  }

  lemma FirstRestored(es: seq<Value>, depth: nat)
    requires es != []
    ensures RestoredAll(es) == [Restored(es[0])] + RestoredAll(es[1..])
    ensures ElementsAccepted(es, depth) <==> Accepted(es[0], depth) && (|es| == 1 || ElementsAccepted(es[1..], depth))
    ensures |es| == 1 ==> RestoredAll(es[1..]) == []
  {
    hide Restored, Accepted;
  }

  lemma Regrouped(done: seq<Value>, v: Value, more: seq<Value>)
    ensures done + [v] + more == done + ([v] + more)
    ensures done + [v] + [] == done + [v]
  {
  }

  lemma {:induction false} ElementsRead(es: seq<Value>, done: seq<Value>, st: Style, indent: Bytes, rest: Bytes,
          depth: nat, toDouble: Bytes -> Option<real>)
    requires es != [] && (forall k :: 0 <= k < |es| ==> Printable(es[k], st, toDouble)) && AllSpace(st.indentation) &&
             AllSpace(indent)
    ensures ReadElements(ElementsText(es, st, indent) + rest, depth, done, toDouble) ==
            if ElementsAccepted(es, depth + 1) then Good(Array(done + RestoredAll(es)), rest) else Thrown
    decreases es, 1
  {
    hide Lex, ReadToken, ReadValue, ReadElements, ValueText, ElementsText, Printable, Accepted, Restored, Delimited;
    hide ElementsAccepted, RestoredAll;
    FirstRestored(es, depth + 1);
    TailDelimited(st, indent, 93, if |es| == 1 then [] else ElementsText(es[1..], st, indent), rest);
    var inner, last := indent + st.indentation, AfterElement(es, st, indent);
    ValueReads(es[0], st, inner, true, last + rest, depth + 1, toDouble);
    ElementHead(es, done, st, indent, rest,
                ReadValue(ValueText(es[0], st, inner, true) + (last + rest), depth + 1, toDouble),
                depth, toDouble);
    if Accepted(es[0], depth + 1) {
      Regrouped(done, Restored(es[0]), RestoredAll(es[1..]));
      if |es| == 1 {
        EndRead(st, indent, 93, rest);
        assert last + rest == Break(st, indent) + ([93] + rest);
      } else {
        var next := ElementsText(es[1..], st, indent) + rest;
        MarkRead(COMMA, ArraySeparator, next);
        assert last + rest == [COMMA] + next;
        ElementsRead(es[1..], done + [Restored(es[0])], st, indent, rest, depth, toDouble);
      }
    }
  }

  lemma {:induction false} EndRead(st: Style, indent: Bytes, close: byte, rest: Bytes)
    requires AllSpace(st.indentation) && AllSpace(indent) && close in {93, 125}
    ensures ReadToken(Break(st, indent) + ([close] + rest)) ==
            Token(if close == 93 then ArrayEnd else ObjectEnd, [close], rest)
  {
    hide Lex, ReadToken, SkipComments;
    SpacesToken(Break(st, indent), [close] + rest);
    MarkRead(close, if close == 93 then ArrayEnd else ObjectEnd, rest);
  }

  /** A value starts with an ASCII character, no space and no closing bracket. */
  lemma {:induction false} FirstByte(v: Value, st: Style, indent: Bytes, tail: Bytes, toDouble: Bytes -> Option<real>)
    requires Printable(v, st, toDouble)
    ensures var t := ValueText(v, st, indent, true) + tail; t != [] && !IsSpace(t[0]) && t[0] != 93 && t[0] < 0x80
  {
    hide MembersText, ElementsText, Quoted;
    match v
    case Str(s) => QuoteFirst(s);
    case Int(i) =>
      DigitFirst(if i < 0 then -i else i);
      assert IntText(i)[0] == MINUS || IsDigit(IntText(i)[0]);
    case UInt(u) => DigitFirst(u);
    case Real(r) => DoubleFirst(st.ofReal(r));
    case Array(es) => if es != [] { assert ValueText(v, st, indent, true)[0] == 91; }
    case Object(ms) => if ms != [] { assert ValueText(v, st, indent, true)[0] == 123; }
    case _ =>
  }

  lemma DoubleFirst(text: Bytes)
    requires DoubleText(text)
    ensures text != [] && (text[0] == MINUS || IsDigit(text[0]))
  {
    var sign, whole, fraction, exponent :| IsDouble(text, sign, whole, fraction, exponent);
    assert text[0] == if sign == [] then whole[0] else MINUS;
  }

  lemma QuoteFirst(s: Bytes)
    ensures Quoted(s) != [] && Quoted(s)[0] == QUOTE
  {
  }

  lemma DigitFirst(n: nat)
    ensures Digits(n) != [] && IsDigit(Digits(n)[0])
  {
  }

  // ----- members

  /** The text starts with a name, a colon and a text that reads as `r`. */
  ghost predicate NameAndValue(t: Bytes, key: Bytes, r: Result, depth: nat, toDouble: Bytes -> Option<real>) {
    var name := ReadToken(t);
    var colon := ReadToken(name.rest);
    && name.kind == StringToken && Decoded(Body(name.text)) == Some(key) && colon.kind == MemberSeparator
    && ReadValue(colon.rest, depth + 1, toDouble) == r
  }

  /** One member, then its comma or the closing brace. */
  lemma {:induction false} MemberStep(t: Bytes, key: Bytes, r: Result, depth: nat, done: seq<Member>,
          toDouble: Bytes -> Option<real>)
    requires NameAndValue(t, key, r, depth, toDouble) && !r.Bad?
    ensures var whole := ReadMembers(t, depth, done, toDouble);
            if |key| >= KEY_LIMIT || r.Thrown? then whole == Thrown
            else whole == AfterMember(r.rest, depth, Insert(done, key, r.value), toDouble)
  {
    hide Lex, ReadToken, ReadValue, AfterMember;
    assert SkipComments(t) == ReadToken(t);
  }

  lemma CommaOrBrace(t: Bytes, depth: nat, ms: seq<Member>, toDouble: Bytes -> Option<real>)
    ensures ReadToken(t).kind == ObjectEnd ==>
              AfterMember(t, depth, ms, toDouble) == Good(Object(ms), ReadToken(t).rest)
    ensures ReadToken(t).kind == ArraySeparator ==>
              AfterMember(t, depth, ms, toDouble) == ReadMembers(ReadToken(t).rest, depth, ms, toDouble)
  {
    hide Lex, ReadToken, ReadMembers;
  }

  lemma {:induction false} MemberText(m: Member, st: Style, inner: Bytes, tail: Bytes, r: Result, depth: nat,
          toDouble: Bytes -> Option<real>)
    requires ReadValue(ValueText(m.value, st, inner, false) + tail, depth + 1, toDouble) == r
    ensures NameAndValue(Quoted(m.key) + (ColonSymbol(st) + (ValueText(m.value, st, inner, false) + tail)),
                         Repaired(m.key), r,
                         depth, toDouble)
  {
    hide Lex, ReadToken, ReadValue, ValueText, Repaired;
    StringTokenRead(m.key, ColonSymbol(st) + (ValueText(m.value, st, inner, false) + tail));
    StringRoundTrip(m.key);
    ColonRead(st, ValueText(m.value, st, inner, false) + tail, depth, toDouble);
  }

  /** What follows a member in its object's text. */
  function TextAfterMember(ms: seq<Member>, st: Style, indent: Bytes): Bytes
    requires ms != []
  {
    if |ms| == 1 then Break(st, indent) + [125] else [COMMA] + MembersText(ms[1..], st, indent)
  }

  lemma {:induction false} MemberHead(ms: seq<Member>, done: seq<Member>, st: Style, indent: Bytes, rest: Bytes,
          r: Result, depth: nat, toDouble: Bytes -> Option<real>)
    requires ms != [] && AllSpace(st.indentation) && AllSpace(indent) && !r.Bad?
    requires r == ReadValue(ValueText(ms[0].value, st, indent + st.indentation, false) +
                            (TextAfterMember(ms, st, indent) + rest),
                            depth + 1, toDouble)
    ensures var whole := ReadMembers(MembersText(ms, st, indent) + rest, depth, done, toDouble);
            if |Repaired(ms[0].key)| >= KEY_LIMIT || r.Thrown? then whole == Thrown
            else whole == AfterMember(r.rest, depth, Insert(done, Repaired(ms[0].key), r.value), toDouble)
  {
    hide Lex, ReadToken, ReadValue, ReadMembers, AfterMember, ValueText, Repaired;
    var inner, m, last := indent + st.indentation, ms[0], TextAfterMember(ms, st, indent);
    var valueText := ValueText(m.value, st, inner, false);
    var text := Quoted(m.key) + (ColonSymbol(st) + (valueText + (last + rest)));
    Regroup5(Break(st, inner), Quoted(m.key), ColonSymbol(st), valueText, last, rest);
    SpacesMembers(Break(st, inner), text, depth, done, toDouble);
    MemberText(m, st, inner, last + rest, r, depth, toDouble);
    MemberStep(text, Repaired(m.key), r, depth, done, toDouble);
  }

  lemma TailDelimited(st: Style, indent: Bytes, close: byte, next: Bytes, rest: Bytes)
    requires close in {93, 125}
    ensures Delimited(Break(st, indent) + [close] + rest) && Delimited([COMMA] + next + rest)
  {
  }

  lemma {:induction false} MembersRead(ms: seq<Member>, done: seq<Member>, st: Style, indent: Bytes, rest: Bytes,
          depth: nat, toDouble: Bytes -> Option<real>)
    requires ms != [] && (forall k :: 0 <= k < |ms| ==> Printable(ms[k].value, st, toDouble))
    requires AllSpace(st.indentation) && AllSpace(indent)
    ensures ReadMembers(MembersText(ms, st, indent) + rest, depth, done, toDouble) ==
            if MembersAccepted(ms, depth + 1) then Good(Object(Inserted(done, ms)), rest) else Thrown
    decreases ms, 1
  {
    hide Lex, ReadToken, ReadValue, ReadMembers, AfterMember, ValueText, MembersText;
    hide Printable, Accepted, Restored, Repaired, Insert, Delimited;
    TailDelimited(st, indent, 125, if |ms| == 1 then [] else MembersText(ms[1..], st, indent), rest);
    var inner, m, last := indent + st.indentation, ms[0], TextAfterMember(ms, st, indent);
    ValueReads(m.value, st, inner, false, last + rest, depth + 1, toDouble);
    MemberHead(ms, done, st, indent, rest,
               ReadValue(ValueText(m.value, st, inner, false) + (last + rest), depth + 1, toDouble),
               depth, toDouble);
    var more := Insert(done, Repaired(m.key), Restored(m.value));
    if |Repaired(m.key)| < KEY_LIMIT && Accepted(m.value, depth + 1) {
      CommaOrBrace(last + rest, depth, more, toDouble);
      if |ms| == 1 {
        EndRead(st, indent, 125, rest);
        assert last + rest == Break(st, indent) + ([125] + rest);
      } else {
        var next := MembersText(ms[1..], st, indent) + rest;
        MarkRead(COMMA, ArraySeparator, next);
        assert last + rest == [COMMA] + next;
        MembersRead(ms[1..], more, st, indent, rest, depth, toDouble);
      }
    }
  }

  /** The colon symbol is one token, and the spaces after it are ignored. */
  lemma {:induction false} ColonRead(st: Style, t: Bytes, depth: nat, toDouble: Bytes -> Option<real>)
    ensures var k := ReadToken(ColonSymbol(st) + t);
            k.kind == MemberSeparator && ReadValue(k.rest, depth + 1, toDouble) == ReadValue(t, depth + 1, toDouble)
  {
    hide Lex, ReadToken, SkipComments, ReadValue;
    if st.indentation == [] {
      MarkRead(COLON, MemberSeparator, t);
    } else {
      assert ColonSymbol(st) + t == [SPACE] + ([COLON] + ([SPACE] + t));
      SpacesToken([SPACE], [COLON] + ([SPACE] + t));
      MarkRead(COLON, MemberSeparator, [SPACE] + t);
      SpacesValue([SPACE], t, depth + 1, toDouble);
    }
  }

  /** Reading back a whole document: for every value whose doubles read back, in the single-line
      style and every style whose indentation is white space, parsing the written text consumes
      all of it and gives the value restored, or throws if the value is past the reader's
      limits. */
  lemma {:induction false} DocumentReads(v: Value, st: Style, toDouble: Bytes -> Option<real>)
    requires Printable(v, st, toDouble) && AllSpace(st.indentation)
    ensures Parse(DocumentText(v, st), toDouble) == if Accepted(v, 1) then Good(Restored(v), []) else Thrown
  {
    hide Lex, ReadValue, ValueText, Printable, Accepted, Restored;
    var text := DocumentText(v, st);
    ValueReads(v, st, [], true, [], 1, toDouble);
    assert text + [] == text;
    FirstByte(v, st, [], [], toDouble);
  }
}
