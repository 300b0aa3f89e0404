/** Which values come back: exactly the writable ones that are nested no deeper than the
    reader's stack limit. */
module JsonExact {
  import opened Bytes
  import opened JsonValue
  import opened JsonNumbers
  import opened JsonStrings
  import opened JsonGrammar
  import opened JsonText
  import opened JsonRoundTrip

  ghost predicate Sorted(ms: seq<Member>) {
    forall i, j :: 0 <= i < j < |ms| ==> BytesLess(ms[i].key, ms[j].key)
  }

  /** Every object's members are in key order, as a std::map keeps them. */
  ghost predicate Ordered(v: Value) {
    match v
    case Array(es) => forall k :: 0 <= k < |es| ==> Ordered(es[k])
    case Object(ms) => Sorted(ms) && forall k :: 0 <= k < |ms| ==> Ordered(ms[k].value)
    case _ => true
  }

  /** Strings and keys well-formed and within the reader's limits, and unsigned
      integers only where signed ones do not reach. */
  ghost predicate Writable(v: Value) {
    match v
    case UInt(u) => MAX_INT < u
    case Str(s) => WellFormed(s) && |s| <= STRING_LIMIT
    case Array(es) => forall k :: 0 <= k < |es| ==> Writable(es[k])
    case Object(ms) => forall k :: 0 <= k < |ms| ==> WritableMember(ms[k])
    case _ => true
  }

  ghost predicate WritableMember(m: Member) {
    WellFormed(m.key) && |m.key| < KEY_LIMIT && Writable(m.value)
  }

  /** How many values are open at once while this one is read. */
  ghost function Height(v: Value): (h: nat)
    ensures h >= 1
    decreases v, 0
  {
    match v
    case Array(es) => 1 + ElementsHeight(es)
    case Object(ms) => 1 + MembersHeight(ms)
    case _ => 1
  }

  ghost function ElementsHeight(es: seq<Value>): nat
    decreases es, 1
  {
    if es == [] then 0 else Max(Height(es[0]), ElementsHeight(es[1..]))
  }

  ghost function MembersHeight(ms: seq<Member>): nat
    decreases ms, 1
  {
    if ms == [] then 0 else Max(Height(ms[0].value), MembersHeight(ms[1..]))
  }

  ghost function Max(a: nat, b: nat): nat {
    if a < b then b else a
  }

  // ----- the limits

  /** For a writable value the only limit left is that on nesting. */
  lemma {:induction false} AcceptedIsShallow(v: Value, depth: nat)
    requires Writable(v)
    ensures Accepted(v, depth) <==> depth + Height(v) <= STACK_LIMIT + 1
    decreases v, 0
  {
    hide WellFormed, Repaired;
    match v
    case Str(s) => WellFormedIsFixed(s);
    case Array(es) => ElementsAreShallow(es, depth + 1);
    case Object(ms) => MembersAreShallow(ms, depth + 1);
    case _ =>
  }

  lemma {:induction false} ElementsAreShallow(es: seq<Value>, depth: nat)
    requires forall k :: 0 <= k < |es| ==> Writable(es[k])
    ensures ElementsAccepted(es, depth) <==> es == [] || depth + ElementsHeight(es) <= STACK_LIMIT + 1
    decreases es, 1
  {
    hide Writable, Accepted, Height;
    if es != [] {
      AcceptedIsShallow(es[0], depth);
      ElementsAreShallow(es[1..], depth);
    }
  }

  lemma {:induction false} MembersAreShallow(ms: seq<Member>, depth: nat)
    requires forall k :: 0 <= k < |ms| ==> WritableMember(ms[k])
    ensures MembersAccepted(ms, depth) <==> ms == [] || depth + MembersHeight(ms) <= STACK_LIMIT + 1
    decreases ms, 1
  {
    hide Writable, Accepted, Height, WellFormed, Repaired;
    if ms != [] {
      assert WritableMember(ms[0]);
      WellFormedIsFixed(ms[0].key);
      AcceptedIsShallow(ms[0].value, depth);
      MembersAreShallow(ms[1..], depth);
    }
  }

  // ----- members in key order are inserted as they come

  function RestoredMembers(ms: seq<Member>): (r: seq<Member>)
    ensures |r| == |ms| && forall k :: 0 <= k < |ms| ==> r[k] == Member(ms[k].key, Restored(ms[k].value))
  {
    if ms == [] then [] else [Member(ms[0].key, Restored(ms[0].value))] + RestoredMembers(ms[1..])
  }

  lemma {:induction false} InsertLast(ms: seq<Member>, key: Bytes, value: Value)
    requires forall i :: 0 <= i < |ms| ==> BytesLess(ms[i].key, key)
    ensures Insert(ms, key, value) == ms + [Member(key, value)]
  {
    if ms != [] {
      InsertLast(ms[1..], key, value);
    }
  }

  lemma {:induction false} InsertedInOrder(done: seq<Member>, ms: seq<Member>)
    requires Sorted(done + ms) && forall k :: 0 <= k < |ms| ==> WellFormed(ms[k].key)
    ensures Inserted(done, ms) == done + RestoredMembers(ms)
    decreases ms
  {
    hide Sorted, WellFormed, Repaired, Restored, Insert;
    if ms == [] {
      assert done + [] == done;
    } else {
      var m := Member(ms[0].key, Restored(ms[0].value));
      FirstInserted(done, ms, m);
      InsertedInOrder(done + [m], ms[1..]);
      assert done + [m] + RestoredMembers(ms[1..]) == done + ([m] + RestoredMembers(ms[1..]));
    }
  }

  lemma FirstInserted(done: seq<Member>, ms: seq<Member>, m: Member)
    requires ms != [] && Sorted(done + ms) && WellFormed(ms[0].key) && m == Member(ms[0].key, Restored(ms[0].value))
    ensures Insert(done, Repaired(ms[0].key), Restored(ms[0].value)) == done + [m] && Sorted(done + [m] + ms[1..])
  {
    hide BytesLess, WellFormed, Repaired, Restored, Insert;
    var all := done + ms;
    WellFormedIsFixed(m.key);
    forall i | 0 <= i < |done| ensures BytesLess(done[i].key, m.key) {
      assert done[i] == all[i] && ms[0] == all[|done|];
    }
    InsertLast(done, m.key, m.value);
    assert [ms[0]] + ms[1..] == ms;
    SameKeysSorted(done, ms[0], m, ms[1..]);
  }

  lemma SameKeysSorted(a: seq<Member>, m: Member, m': Member, b: seq<Member>)
    requires m.key == m'.key
    requires Sorted(a + ([m] + b))
    ensures Sorted(a + [m'] + b)
  {
    hide BytesLess;
    var was, now := a + ([m] + b), a + [m'] + b;
    assert Sorted(was);
    assert forall i :: 0 <= i < |now| ==> now[i].key == was[i].key;
  }

  // ----- which values come back

  lemma {:induction false} WritableComesBack(v: Value)
    requires Ordered(v) && Writable(v)
    ensures Restored(v) == v
    decreases v
  {
    hide WellFormed, Repaired, Sorted;
    match v
    case Str(s) => WellFormedIsFixed(s);
    case Array(es) =>
      forall k | 0 <= k < |es| ensures Restored(es[k]) == es[k] { WritableComesBack(es[k]); }
      assert RestoredAll(es) == es;
    case Object(ms) =>
      forall k | 0 <= k < |ms| ensures WellFormed(ms[k].key) && Restored(ms[k].value) == ms[k].value {
        assert WritableMember(ms[k]);
        WritableComesBack(ms[k].value);
      }
      assert [] + ms == ms;
      InsertedInOrder([], ms);
      assert [] + RestoredMembers(ms) == ms;
    case _ =>
  }

  /** Whatever was written, the keys that come back are well-formed. */
  lemma {:induction false} InsertedKeys(done: seq<Member>, ms: seq<Member>)
    requires forall k :: 0 <= k < |done| ==> WellFormed(done[k].key)
    ensures forall k :: 0 <= k < |Inserted(done, ms)| ==> WellFormed(Inserted(done, ms)[k].key)
    decreases ms
  {
    hide WellFormed, Repaired, Restored, Insert;
    if ms != [] {
      RepairedIsWellFormed(ms[0].key);
      InsertKeys(done, Repaired(ms[0].key), Restored(ms[0].value));
      InsertedKeys(Insert(done, Repaired(ms[0].key), Restored(ms[0].value)), ms[1..]);
    }
  }

  lemma {:induction false} InsertKeys(ms: seq<Member>, key: Bytes, value: Value)
    requires WellFormed(key) && forall k :: 0 <= k < |ms| ==> WellFormed(ms[k].key)
    ensures forall k :: 0 <= k < |Insert(ms, key, value)| ==> WellFormed(Insert(ms, key, value)[k].key)
  {
    hide WellFormed, BytesLess, BytesEqual;
    if ms != [] {
      InsertKeys(ms[1..], key, value);
    }
  }

  /** A value that comes back unchanged is writable. */
  lemma {:induction false} UnchangedIsWritable(v: Value, depth: nat)
    requires Ordered(v) && Accepted(v, depth) && Restored(v) == v
    ensures Writable(v)
    decreases v
  {
    hide WellFormed, Repaired, Sorted;
    match v
    case Str(s) => RepairedIsWellFormed(s);
    case Array(es) => UnchangedElements(es, depth + 1);
    case Object(ms) => UnchangedMembers(ms, depth + 1);
    case _ =>
  }

  lemma {:induction false} UnchangedElements(es: seq<Value>, depth: nat)
    requires (forall k :: 0 <= k < |es| ==> Ordered(es[k])) && ElementsAccepted(es, depth) && RestoredAll(es) == es
    ensures forall k :: 0 <= k < |es| ==> Writable(es[k])
    decreases es
  {
    hide Accepted, ElementsAccepted;
    EachElementAccepted(es, depth);
    forall k | 0 <= k < |es| ensures Writable(es[k]) {
      assert Restored(es[k]) == RestoredAll(es)[k];
      UnchangedIsWritable(es[k], depth);
    }
  }

  lemma {:induction false} UnchangedMembers(ms: seq<Member>, depth: nat)
    requires Sorted(ms) && (forall k :: 0 <= k < |ms| ==> Ordered(ms[k].value)) && MembersAccepted(ms, depth)
    requires Inserted([], ms) == ms
    ensures forall k :: 0 <= k < |ms| ==> WritableMember(ms[k])
    decreases ms
  {
    hide Accepted, MembersAccepted, WellFormed, Repaired, Sorted, Inserted, RestoredMembers;
    InsertedKeys([], ms);
    assert [] + ms == ms;
    InsertedInOrder([], ms);
    assert [] + RestoredMembers(ms) == RestoredMembers(ms);
    EachMemberAccepted(ms, depth);
    forall k | 0 <= k < |ms| ensures WritableMember(ms[k]) {
      assert RestoredMembers(ms)[k] == ms[k];
      WellFormedIsFixed(ms[k].key);
      UnchangedIsWritable(ms[k].value, depth);
    }
  }

  lemma {:induction false} EachElementAccepted(es: seq<Value>, depth: nat)
    requires ElementsAccepted(es, depth)
    ensures forall k :: 0 <= k < |es| ==> Accepted(es[k], depth)
    decreases es
  {
    hide Accepted;
    if es != [] { EachElementAccepted(es[1..], depth); }
  }

  lemma {:induction false} EachMemberAccepted(ms: seq<Member>, depth: nat)
    requires MembersAccepted(ms, depth)
    ensures forall k :: 0 <= k < |ms| ==> |Repaired(ms[k].key)| < KEY_LIMIT && Accepted(ms[k].value, depth)
    decreases ms
  {
    hide Accepted, Repaired;
    if ms != [] { EachMemberAccepted(ms[1..], depth); }
  }

  /** The round trip, with its exact condition: of all the values that the library can hold, with
      doubles that read back, parsing the written text gives back exactly those that are writable
      and nested no deeper than the stack limit. */
  lemma RoundTripExactly(v: Value, st: Style, toDouble: Bytes -> Option<real>)
    requires Printable(v, st, toDouble) && Ordered(v) && AllSpace(st.indentation)
    ensures Parse(DocumentText(v, st), toDouble) == Good(v, []) <==> Writable(v) && Height(v) <= STACK_LIMIT
  {
    hide Parse, DocumentText, Accepted, Restored, Writable, Ordered, Printable;
    DocumentReads(v, st, toDouble);
    if Writable(v) {
      AcceptedIsShallow(v, 1);
      WritableComesBack(v);
    } else if Accepted(v, 1) && Restored(v) == v {
      UnchangedIsWritable(v, 1);
    }
  }

  /** An unsigned integer that a signed one could hold comes back signed, and so not equal. */
  lemma SmallUnsignedComesBackSigned(u: nat, st: Style, toDouble: Bytes -> Option<real>)
    requires u <= MAX_INT && AllSpace(st.indentation)
    ensures Parse(DocumentText(UInt(u), st), toDouble) == Good(Int(u), []) && !Equal(UInt(u), Int(u))
  {
    hide Parse, DocumentText;
    DocumentReads(UInt(u), st, toDouble);
  }
}
