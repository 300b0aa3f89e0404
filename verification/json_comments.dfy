/** Two places where comments make the reader take more than it should: what ends a C-style
    comment, and what passes for the comma after an object member. */
module JsonComments {
  import opened Bytes
  import opened JsonValue
  import opened JsonNumbers
  import opened JsonStrings
  import opened JsonGrammar
  import opened JsonText
  import opened JsonRoundTrip

  // ----- the end of a C-style comment

  ghost predicate StarSlashAt(t: Bytes, i: nat) {
    i + 1 < |t| && t[i] == 42 && t[i + 1] == 47
  }

  /** The first star and slash are at `i`. */
  ghost predicate FirstEndAt(t: Bytes, i: nat) {
    StarSlashAt(t, i) && forall j: nat :: j < i ==> !StarSlashAt(t, j)
  }

  lemma {:induction false} EndsAtFirst(t: Bytes, i: nat)
    requires FirstEndAt(t, i)
    ensures AfterCStyle(t) == (true, t[i + 2..])
    decreases i
  {
    if i > 0 {
      var u := t[1..];
      assert !StarSlashAt(t, 0);
      forall j: nat | j < i - 1 ensures !StarSlashAt(u, j) { assert !StarSlashAt(t, j + 1); }
      EndsAtFirst(u, i - 1);
      assert u[i + 1..] == t[i + 2..];
    }
  }

  lemma {:induction false} EndsAtLast(t: Bytes)
    requires forall i: nat :: !StarSlashAt(t, i)
    ensures AfterCStyle(t) == (t != [] && t[|t| - 1] == 47, [])
    decreases |t|
  {
    if |t| > 1 {
      assert !StarSlashAt(t, 0);
      forall i: nat ensures !StarSlashAt(t[1..], i) { assert !StarSlashAt(t, i + 1); }
      EndsAtLast(t[1..]);
    }
  }

  lemma {:induction false} HasFirst(t: Bytes, i: nat) returns (k: nat)
    requires StarSlashAt(t, i)
    ensures k <= i && FirstEndAt(t, k)
  {
    if j: nat :| j < i && StarSlashAt(t, j) {
      k := HasFirst(t, j);
    } else {
      k := i;
    }
  }

  /** After its opening, a C-style comment ends at the first star and slash. Without any, it is
      a comment exactly if the document ends with a slash. */
  lemma CStyleExactly(t: Bytes)
    ensures forall i: nat :: FirstEndAt(t, i) ==> AfterCStyle(t) == (true, t[i + 2..])
    ensures (forall i: nat :: !StarSlashAt(t, i)) ==> AfterCStyle(t) == (t != [] && t[|t| - 1] == 47, [])
    ensures AfterCStyle(t).0 <==> (exists i: nat :: StarSlashAt(t, i)) || (t != [] && t[|t| - 1] == 47)
  {
    hide AfterCStyle;
    forall i: nat | FirstEndAt(t, i) ensures AfterCStyle(t) == (true, t[i + 2..]) { EndsAtFirst(t, i); }
    if i: nat :| StarSlashAt(t, i) {
      var k := HasFirst(t, i);
      EndsAtFirst(t, k);
    } else {
      EndsAtLast(t);
    }
  }

  /** A slash, a star and a slash are a whole comment, if nothing follows. */
  lemma SlashStarSlash()
    ensures ReadToken([47, 42, 47]) == Token(Comment, [47, 42, 47], [])
  {
    hide Lex, ReadToken;
    var t: Bytes := [47, 42, 47];
    assert [42, 47][1..] == [47] && AfterCStyle([47]) == (true, []);
    LexComment([42, 47]);
    assert t[1..] == [42, 47] && t == t + [];
    TokenText(t, t, []);
  }

  lemma LexComment(t: Bytes)
    requires AfterComment(t).0
    ensures Lex(47, t) == (Comment, AfterComment(t).1)
  {
    hide AfterComment, AfterNumber, ScanString, AfterPattern;
  }

  // ----- after a member

  /** What should follow a member, besides comments: a comma, or the closing brace. */
  function CommaRequired(t: Bytes, depth: nat, members: seq<Member>, toDouble: Bytes -> Option<real>): Result {
    var k := SkipComments(t);
    if k.kind == ObjectEnd then Good(Object(members), k.rest)
    else if k.kind == ArraySeparator then ReadMembers(k.rest, depth, members, toDouble)
    else Bad
  }

  /** The text after a member is taken as it should be, except where a comment comes first, then
      a token that is neither comma nor closing brace, and then what could follow a comma. */
  lemma StrayTokenExactly(t: Bytes, depth: nat, members: seq<Member>, toDouble: Bytes -> Option<real>)
    ensures var k := SkipComments(t);
            AfterMember(t, depth, members, toDouble) != CommaRequired(t, depth, members, toDouble) <==>
            ReadToken(t).kind == Comment && k.kind != ObjectEnd && k.kind != ArraySeparator &&
            ReadMembers(k.rest, depth, members, toDouble) != Bad
  {
    hide ReadToken, ReadMembers;
  }

  /** The token is then ignored: it might as well be a comma. */
  lemma StrayTokenIsComma(t: Bytes, depth: nat, members: seq<Member>, toDouble: Bytes -> Option<real>)
    requires ReadToken(t).kind == Comment && SkipComments(t).kind != ObjectEnd
    ensures AfterMember(t, depth, members, toDouble) ==
            AfterMember([COMMA] + SkipComments(t).rest, depth, members, toDouble)
  {
    hide ReadToken, ReadMembers;
    MarkRead(COMMA, ArraySeparator, SkipComments(t).rest);
  }

  const EMPTY_COMMENT: Bytes := [47, 42, 42, 47]

  lemma EmptyCommentRead(rest: Bytes)
    ensures ReadToken(EMPTY_COMMENT + rest) == Token(Comment, EMPTY_COMMENT, rest)
  {
    hide Lex, ReadToken;
    var u := EMPTY_COMMENT + rest;
    assert u[1..][1..] == [42, 47] + rest;
    assert ([42, 47] + rest)[2..] == rest;
    LexComment(u[1..]);
    TokenText(u, EMPTY_COMMENT, rest);
  }

  /** An object of two members, with an empty comment and a colon where the comma should be. */
  const STRAY: Bytes := [123, 34, 97, 34, 58, 49] + EMPTY_COMMENT + [58, 34, 98, 34, 58, 50, 125]

  /** It reads as an object of two members. */
  lemma StrayColonTaken(toDouble: Bytes -> Option<real>)
    ensures Parse(STRAY, toDouble) == Good(Object([Member([97], Int(1)), Member([98], Int(2))]), [])
  {
    hide Lex, ReadToken, ReadValue, ReadMembers, AfterMember, MembersText, ValueText, Quoted;
    var st := Style([], r => []);
    var a, b := Member([97], Int(1)), Member([98], Int(2));
    var tail := MembersText([b], st, []) + [];
    var after := EMPTY_COMMENT + ([58] + tail);
    var whole := Quoted(a.key) + (ColonSymbol(st) + (ValueText(a.value, st, [], false) + after));
    Texts(st);
    assert STRAY == [] + ([123] + whole);
    OpenReads([], 123, whole, 1, toDouble);
    FirstMember(a, st, after, toDouble);
    CommentThenColon(tail, [a], toDouble);
    LastMember(a, b, st, toDouble);
    NothingLeft();
    var v := Object([a, b]);
    assert ReadMembers(tail, 1, [a], toDouble) == Good(v, []);
    assert ReadMembers(whole, 1, [], toDouble) == Good(v, []);
    assert ReadValue(STRAY, 1, toDouble) == Good(v, []);
    assert STRAY[0] == 123 && !(BOM <= STRAY);
  }

  lemma Texts(st: Style)
    requires st.indentation == []
    ensures Quoted([97]) == [34, 97, 34] && ValueText(Int(1), st, [], false) == [49]
    ensures MembersText([Member([98], Int(2))], st, []) == [34, 98, 34, 58, 50, 125]
  {
    assert Quoted([97]) == [34, 97, 34] && Quoted([98]) == [34, 98, 34];
    assert Digits(1) == [49] && Digits(2) == [50];
    assert ValueText(Int(2), st, [], false) == [50];
  }

  lemma Letters()
    ensures Repaired([97]) == [97] && Repaired([98]) == [98]
  {
    assert CharLength([97]) == 1 && CharLength([98]) == 1;
    assert WellFormed([97]) && WellFormed([98]);
    WellFormedIsFixed([97]);
    WellFormedIsFixed([98]);
  }

  lemma NothingLeft()
    ensures SkipComments([]).rest == []
  {
  }

  lemma FirstMember(a: Member, st: Style, after: Bytes, toDouble: Bytes -> Option<real>)
    requires a == Member([97], Int(1)) && st.indentation == [] && Delimited(after)
    ensures ReadMembers(Quoted(a.key) + (ColonSymbol(st) + (ValueText(a.value, st, [], false) + after)), 1, [],
                        toDouble) ==
            AfterMember(after, 1, [a], toDouble)
  {
    hide Lex, ReadToken, ReadValue, ReadMembers, AfterMember, ValueText, Quoted, Repaired;
    Letters();
    ValueReads(a.value, st, [], false, after, 2, toDouble);
    var r := Good(a.value, after);
    MemberText(a, st, [], after, r, 1, toDouble);
    MemberStep(Quoted(a.key) + (ColonSymbol(st) + (ValueText(a.value, st, [], false) + after)), a.key, r, 1, [],
               toDouble);
  }

  lemma CommentThenColon(tail: Bytes, members: seq<Member>, toDouble: Bytes -> Option<real>)
    ensures AfterMember(EMPTY_COMMENT + ([58] + tail), 1, members, toDouble) == ReadMembers(tail, 1, members, toDouble)
  {
    hide Lex, ReadToken, ReadMembers, EMPTY_COMMENT;
    EmptyCommentRead([58] + tail);
    MarkRead(COLON, MemberSeparator, tail);
  }

  lemma LastMember(a: Member, b: Member, st: Style, toDouble: Bytes -> Option<real>)
    requires a == Member([97], Int(1)) && b == Member([98], Int(2)) && st.indentation == []
    ensures ReadMembers(MembersText([b], st, []) + [], 1, [a], toDouble) == Good(Object([a, b]), [])
  {
    hide ReadMembers, MembersText, Repaired;
    Letters();
    MembersRead([b], [a], st, [], [], 1, toDouble);
    assert BytesLess([97], [98]);
    assert Insert([a], [98], Int(2)) == [a, b];
    assert Inserted([a], [b]) == [a, b];
    assert MembersAccepted([b], 2);
  }
}
