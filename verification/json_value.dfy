/** Json::Value: its shape, the order of its object keys and the order on values. */
module JsonValue {
  import opened Bytes

  /** An object is a std::map: its members in key order. An array is the map from the
      indices 0..n-1. A double is a real number here: no rounding, no NaN. */
  datatype Value =
    | Null | Int(i: int) | UInt(u: nat) | Real(r: real) | Str(s: Bytes) | Bool(b: bool)
    | Array(elements: seq<Value>) | Object(members: seq<Member>)

  datatype Member = Member(key: Bytes, value: Value)

  const MAX_INT: int := 0x7fff_ffff_ffff_ffff
  const MAX_UINT: int := 0xffff_ffff_ffff_ffff

  /** The ValueType enumerator, which orders values of different types. */
  function TypeOf(v: Value): nat {
    match v
    case Null => 0
    case Int(_) => 1
    case UInt(_) => 2
    case Real(_) => 3
    case Str(_) => 4
    case Bool(_) => 5
    case Array(_) => 6
    case Object(_) => 7
  }

  /** Every integer is one the library can hold: 64 bits, with or without a sign. */
  ghost predicate IntegersFit(v: Value) {
    match v
    case Int(i) => -MAX_INT - 1 <= i <= MAX_INT
    case UInt(u) => u <= MAX_UINT
    case Array(es) => forall k :: 0 <= k < |es| ==> IntegersFit(es[k])
    case Object(ms) => forall k :: 0 <= k < |ms| ==> IntegersFit(ms[k].value)
    case _ => true
  }

  // ----- keys

  /** memcmp over the first n bytes. */
  function MemCmp(a: Bytes, b: Bytes, n: nat): int
    requires n <= |a| && n <= |b|
    decreases n
  {
    if n == 0 then 0
    else if a[0] != b[0] then a[0] - b[0]
    else MemCmp(a[1..], b[1..], n - 1)
  }

  function Min(a: nat, b: nat): nat {
    if a < b then a else b
  }

  /** CZString::operator<, also the order of string values. */
  predicate BytesLess(a: Bytes, b: Bytes) {
    var comp := MemCmp(a, b, Min(|a|, |b|));
    if comp < 0 then true else if comp > 0 then false else |a| < |b|
  }

  /** CZString::operator==. */
  predicate BytesEqual(a: Bytes, b: Bytes) {
    |a| == |b| && MemCmp(a, b, |a|) == 0
  }

  lemma Cons(a: Bytes, b: Bytes, n: nat)
    requires 0 < n <= |a| && n <= |b|
    ensures a[..n] == b[..n] <==> a[0] == b[0] && a[1..][..n - 1] == b[1..][..n - 1]
  {
    assert a[..n] == [a[0]] + a[1..][..n - 1] && b[..n] == [b[0]] + b[1..][..n - 1];
    if a[..n] == b[..n] {
      assert a[1..][..n - 1] == a[..n][1..] && b[1..][..n - 1] == b[..n][1..] && a[0] == a[..n][0];
    }
  }

  /** The first difference is at i, and there `a` is smaller. */
  ghost predicate SmallerAt(a: Bytes, b: Bytes, i: nat) {
    i < |a| && i < |b| && a[..i] == b[..i] && a[i] < b[i]
  }

  /** The dictionary order, stated on first differences instead of on memcmp. */
  ghost predicate Dictionary(a: Bytes, b: Bytes) {
    (a <= b && |a| < |b|) || exists i :: SmallerAt(a, b, i)
  }

  lemma {:induction false} MemCmpFirstDifference(a: Bytes, b: Bytes, n: nat)
    requires n <= |a| && n <= |b|
    ensures MemCmp(a, b, n) == 0 <==> a[..n] == b[..n]
    ensures MemCmp(a, b, n) < 0 <==> exists i :: 0 <= i < n && SmallerAt(a, b, i)
    decreases n
  {
    if n > 0 {
      Cons(a, b, n);
      if a[0] == b[0] {
        MemCmpFirstDifference(a[1..], b[1..], n - 1);
        forall i | 0 <= i < n - 1 ensures SmallerAt(a[1..], b[1..], i) <==> SmallerAt(a, b, i + 1) {
          Cons(a, b, i + 1);
        }
        if MemCmp(a, b, n) < 0 {
          var i :| 0 <= i < n - 1 && SmallerAt(a[1..], b[1..], i);
          assert SmallerAt(a, b, i + 1);
        }
        forall i | 0 <= i < n && SmallerAt(a, b, i) ensures MemCmp(a, b, n) < 0 {
          assert i > 0 && SmallerAt(a[1..], b[1..], i - 1);
        }
      } else {
        if a[0] < b[0] { assert SmallerAt(a, b, 0); }
        forall i | 0 <= i < n && SmallerAt(a, b, i) ensures MemCmp(a, b, n) < 0 {
          if i > 0 { Cons(a, b, i); }
        }
      }
    }
  }

  /** The key order is the dictionary order, and key equality is equality of the bytes. */
  lemma BytesLessIsDictionary(a: Bytes, b: Bytes)
    ensures BytesLess(a, b) <==> Dictionary(a, b)
    ensures BytesEqual(a, b) <==> a == b
  {
    var n := Min(|a|, |b|);
    MemCmpFirstDifference(a, b, n);
    assert a[..|a|] == a && b[..|b|] == b;
    if a[..n] == b[..n] {
      if |a| < |b| { assert a <= b; }
      forall i | 0 <= i < n ensures a[i] == b[i] { assert a[..n][i] == b[..n][i]; }
    } else {
      assert !(a <= b);
    }
  }

  lemma {:induction false} BytesTrichotomy(a: Bytes, b: Bytes)
    ensures !(BytesLess(a, b) && BytesLess(b, a)) && !(a == b && BytesLess(a, b))
    ensures BytesLess(a, b) || a == b || BytesLess(b, a)
    decreases |a|
  {
    if a != [] && b != [] {
      if a[0] == b[0] {
        BytesTrichotomy(a[1..], b[1..]);
        assert a == [a[0]] + a[1..] && b == [b[0]] + b[1..];
      }
    }
  }

  lemma {:induction false} BytesTransitive(a: Bytes, b: Bytes, c: Bytes)
    requires BytesLess(a, b) && BytesLess(b, c)
    ensures BytesLess(a, c)
    decreases |a|
  {
    if a != [] && b != [] && c != [] {
      if a[0] == b[0] && b[0] == c[0] {
        BytesTransitive(a[1..], b[1..], c[1..]);
      }
    }
  }

  // ----- values

  function Size(v: Value): (n: nat)
    ensures n > 0
  {
    match v
    case Array(es) => 1 + ElementsSize(es)
    case Object(ms) => 1 + MembersSize(ms)
    case _ => 1
  }

  function ElementsSize(es: seq<Value>): nat {
    if es == [] then 0 else Size(es[0]) + ElementsSize(es[1..])
  }

  function MembersSize(ms: seq<Member>): nat {
    if ms == [] then 0 else Size(ms[0].value) + MembersSize(ms[1..])
  }

  /** Value::operator<. Arrays and objects compare their maps, of equal size by then,
      with std::lexicographical_compare on the (key, value) pairs. */
  predicate Less(a: Value, b: Value)
    decreases Size(a) + Size(b), 1
  {
    if TypeOf(a) != TypeOf(b) then TypeOf(a) < TypeOf(b) else
    match a
    case Null => false
    case Int(i) => i < b.i
    case UInt(u) => u < b.u
    case Real(r) => r < b.r
    case Bool(x) => !x && b.b
    case Str(s) => BytesLess(s, b.s)
    case Array(es) => if |es| != |b.elements| then |es| < |b.elements| else ElementsLess(es, b.elements)
    case Object(ms) => if |ms| != |b.members| then |ms| < |b.members| else MembersLess(ms, b.members)
  }

  /** Arrays of one size have the same keys, so their pairs differ only in the values. */
  predicate ElementsLess(a: seq<Value>, b: seq<Value>)
    requires |a| == |b|
    decreases ElementsSize(a) + ElementsSize(b), 2
  {
    if a == [] then false
    else if Less(a[0], b[0]) then true
    else if Less(b[0], a[0]) then false
    else ElementsLess(a[1..], b[1..])
  }

  /** std::pair's operator<. */
  predicate PairLess(x: Member, y: Member)
    decreases Size(x.value) + Size(y.value), 2
  {
    BytesLess(x.key, y.key) || (!BytesLess(y.key, x.key) && Less(x.value, y.value))
  }

  predicate MembersLess(a: seq<Member>, b: seq<Member>)
    requires |a| == |b|
    decreases MembersSize(a) + MembersSize(b), 3
  {
    if a == [] then false
    else if PairLess(a[0], b[0]) then true
    else if PairLess(b[0], a[0]) then false
    else MembersLess(a[1..], b[1..])
  }

  /** Value::operator==. */
  predicate Equal(a: Value, b: Value)
    decreases a
  {
    TypeOf(a) == TypeOf(b) &&
    match a
    case Null => true
    case Int(i) => i == b.i
    case UInt(u) => u == b.u
    case Real(r) => r == b.r
    case Bool(x) => x == b.b
    case Str(s) => BytesEqual(s, b.s)
    case Array(es) => |es| == |b.elements| && forall k :: 0 <= k < |es| ==> Equal(es[k], b.elements[k])
    case Object(ms) =>
      |ms| == |b.members| &&
      forall k :: 0 <= k < |ms| ==> BytesEqual(ms[k].key, b.members[k].key) && Equal(ms[k].value, b.members[k].value)
  }

  /** Value::compare. */
  function Compare(a: Value, b: Value): int {
    if Less(a, b) then -1 else if Less(b, a) then 1 else 0
  }

  // ----- the order is a strict total order

  /** Exactly one of a < b, a == b, b < a. */
  ghost predicate Tri(less: bool, equal: bool, greater: bool) {
    (less && !equal && !greater) || (!less && equal && !greater) || (!less && !equal && greater)
  }

  lemma {:induction false} Trichotomy(a: Value, b: Value)
    ensures Tri(Less(a, b), a == b, Less(b, a))
    decreases Size(a) + Size(b), 1
  {
    if TypeOf(a) == TypeOf(b) {
      match a
      case Str(s) => BytesTrichotomy(s, b.s);
      case Array(es) => if |es| == |b.elements| { ElementsTrichotomy(es, b.elements); }
      case Object(ms) => if |ms| == |b.members| { MembersTrichotomy(ms, b.members); }
      case _ =>
    }
  }

  lemma {:induction false} ElementsTrichotomy(a: seq<Value>, b: seq<Value>)
    requires |a| == |b|
    ensures Tri(ElementsLess(a, b), a == b, ElementsLess(b, a))
    decreases ElementsSize(a) + ElementsSize(b), 2
  {
    if a != [] {
      Trichotomy(a[0], b[0]);
      ElementsTrichotomy(a[1..], b[1..]);
      assert a == [a[0]] + a[1..] && b == [b[0]] + b[1..];
    }
  }

  lemma {:induction false} PairTrichotomy(x: Member, y: Member)
    ensures Tri(PairLess(x, y), x == y, PairLess(y, x))
    decreases Size(x.value) + Size(y.value), 2
  {
    BytesTrichotomy(x.key, y.key);
    BytesTrichotomy(y.key, x.key);
    Trichotomy(x.value, y.value);
  }

  lemma {:induction false} MembersTrichotomy(a: seq<Member>, b: seq<Member>)
    requires |a| == |b|
    ensures Tri(MembersLess(a, b), a == b, MembersLess(b, a))
    decreases MembersSize(a) + MembersSize(b), 3
  {
    if a != [] {
      PairTrichotomy(a[0], b[0]);
      MembersTrichotomy(a[1..], b[1..]);
      assert a == [a[0]] + a[1..] && b == [b[0]] + b[1..];
    }
  }

  lemma {:induction false} Transitive(a: Value, b: Value, c: Value)
    requires Less(a, b) && Less(b, c)
    ensures Less(a, c)
    decreases Size(a) + Size(b), 1
  {
    if TypeOf(a) == TypeOf(b) == TypeOf(c) {
      match a
      case Str(s) => BytesTransitive(s, b.s, c.s);
      case Array(es) =>
        if |es| == |b.elements| == |c.elements| { ElementsTransitive(es, b.elements, c.elements); }
      case Object(ms) =>
        if |ms| == |b.members| == |c.members| { MembersTransitive(ms, b.members, c.members); }
      case _ =>
    }
  }

  lemma {:induction false} ElementsTransitive(a: seq<Value>, b: seq<Value>, c: seq<Value>)
    requires |a| == |b| == |c| && ElementsLess(a, b) && ElementsLess(b, c)
    ensures ElementsLess(a, c)
    decreases ElementsSize(a) + ElementsSize(b), 2
  {
    Trichotomy(a[0], b[0]);
    Trichotomy(b[0], c[0]);
    if Less(a[0], b[0]) && Less(b[0], c[0]) {
      Transitive(a[0], b[0], c[0]);
    } else if !Less(a[0], b[0]) && !Less(b[0], c[0]) {
      ElementsTransitive(a[1..], b[1..], c[1..]);
    }
  }

  lemma {:induction false} PairTransitive(x: Member, y: Member, z: Member)
    requires PairLess(x, y) && PairLess(y, z)
    ensures PairLess(x, z)
    decreases Size(x.value) + Size(y.value), 2
  {
    BytesTrichotomy(x.key, y.key);
    BytesTrichotomy(y.key, z.key);
    if BytesLess(x.key, y.key) && BytesLess(y.key, z.key) {
      BytesTransitive(x.key, y.key, z.key);
    } else if x.key == y.key == z.key {
      Transitive(x.value, y.value, z.value);
    }
  }

  lemma {:induction false} MembersTransitive(a: seq<Member>, b: seq<Member>, c: seq<Member>)
    requires |a| == |b| == |c| && MembersLess(a, b) && MembersLess(b, c)
    ensures MembersLess(a, c)
    decreases MembersSize(a) + MembersSize(b), 3
  {
    PairTrichotomy(a[0], b[0]);
    PairTrichotomy(b[0], c[0]);
    if PairLess(a[0], b[0]) && PairLess(b[0], c[0]) {
      PairTransitive(a[0], b[0], c[0]);
    } else if !PairLess(a[0], b[0]) && !PairLess(b[0], c[0]) {
      MembersTransitive(a[1..], b[1..], c[1..]);
    }
  }

  /** operator== is equality of the values. */
  lemma {:induction false} EqualIsIdentity(a: Value, b: Value)
    ensures Equal(a, b) <==> a == b
    decreases a
  {
    if TypeOf(a) == TypeOf(b) {
      match a
      case Str(s) => BytesLessIsDictionary(s, b.s);
      case Array(es) =>
        if |es| == |b.elements| {
          forall k | 0 <= k < |es| ensures Equal(es[k], b.elements[k]) <==> es[k] == b.elements[k] {
            EqualIsIdentity(es[k], b.elements[k]);
          }
          if Equal(a, b) { assert es == b.elements; }
        }
      case Object(ms) =>
        if |ms| == |b.members| {
          forall k | 0 <= k < |ms|
            ensures BytesEqual(ms[k].key, b.members[k].key) <==> ms[k].key == b.members[k].key
            ensures Equal(ms[k].value, b.members[k].value) <==> ms[k].value == b.members[k].value
          {
            BytesLessIsDictionary(ms[k].key, b.members[k].key);
            EqualIsIdentity(ms[k].value, b.members[k].value);
          }
          if Equal(a, b) { assert ms == b.members; }
        }
      case _ =>
    }
  }

  /** compare is a three-way comparison: 0 exactly on equal values, and its sign is
      antisymmetric and transitive. */
  lemma CompareIsOrder(a: Value, b: Value, c: Value)
    ensures Compare(a, b) == 0 <==> Equal(a, b)
    ensures Compare(a, b) == -Compare(b, a)
    ensures Compare(a, b) <= 0 && Compare(b, c) <= 0 ==> Compare(a, c) <= 0
  {
    EqualIsIdentity(a, b);
    Trichotomy(a, b);
    Trichotomy(b, c);
    Trichotomy(a, c);
    if Less(a, b) && Less(b, c) { Transitive(a, b, c); }
  }
}
