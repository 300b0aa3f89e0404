/** Which order on values operator< is, stated on the values alone. */
module JsonOrder {
  import opened Bytes
  import opened JsonValue

  /** Which enumerator of ValueType is the value's, in the order of the enumeration. */
  ghost function Enumerators(v: Value): (r: seq<bool>)
    ensures |r| == 8
  {
    [v.Null?, v.Int?, v.UInt?, v.Real?, v.Str?, v.Bool?, v.Array?, v.Object?]
  }

  ghost predicate EarlierType(a: Value, b: Value) {
    exists i, j :: 0 <= i < j < 8 && Enumerators(a)[i] && Enumerators(b)[j]
  }

  /** Different types by their place in the enumeration, numbers numerically, strings by the
      dictionary, false before true, arrays and objects by size and then at the first index
      where they differ: there the smaller value, or the smaller key, or the same key and the
      smaller value. */
  ghost predicate Before(a: Value, b: Value)
    decreases a
  {
    || EarlierType(a, b)
    || (a.Int? && b.Int? && a.i < b.i)
    || (a.UInt? && b.UInt? && a.u < b.u)
    || (a.Real? && b.Real? && a.r < b.r)
    || (a.Str? && b.Str? && Dictionary(a.s, b.s))
    || (a.Bool? && b.Bool? && a == Bool(false) && b == Bool(true))
    || (a.Array? && b.Array? && |a.elements| < |b.elements|)
    || (a.Array? && b.Array? && |a.elements| == |b.elements| &&
        exists k :: 0 <= k < |a.elements| && a.elements[..k] == b.elements[..k] &&
                    Before(a.elements[k], b.elements[k]))
    || (a.Object? && b.Object? && |a.members| < |b.members|)
    || (a.Object? && b.Object? && |a.members| == |b.members| &&
        exists k :: 0 <= k < |a.members| && a.members[..k] == b.members[..k] &&
                    (Dictionary(a.members[k].key, b.members[k].key) ||
                     (a.members[k].key == b.members[k].key && Before(a.members[k].value, b.members[k].value))))
  }

  lemma TypesOrdered(a: Value, b: Value)
    ensures EarlierType(a, b) <==> TypeOf(a) < TypeOf(b)
  {
    if TypeOf(a) < TypeOf(b) {
      assert Enumerators(a)[TypeOf(a)] && Enumerators(b)[TypeOf(b)];
    }
  }

  lemma {:induction false} ElementsFirst(a: seq<Value>, b: seq<Value>)
    requires |a| == |b|
    ensures ElementsLess(a, b) <==> exists k :: 0 <= k < |a| && a[..k] == b[..k] && Less(a[k], b[k])
    decreases |a|
  {
    if a != [] {
      Trichotomy(a[0], b[0]);
      ElementsFirst(a[1..], b[1..]);
      if Less(a[0], b[0]) {
        assert a[..0] == b[..0];
      } else if a[0] == b[0] && ElementsLess(a[1..], b[1..]) {
        var k :| 0 <= k < |a| - 1 && a[1..][..k] == b[1..][..k] && Less(a[1..][k], b[1..][k]);
        assert a[..k + 1] == [a[0]] + a[1..][..k] && b[..k + 1] == [b[0]] + b[1..][..k];
        assert a[k + 1] == a[1..][k] && b[k + 1] == b[1..][k];
      }
      forall k | 0 <= k < |a| && a[..k] == b[..k] && Less(a[k], b[k]) ensures ElementsLess(a, b) {
        if k > 0 {
          assert a[0] == a[..k][0] == b[..k][0];
          assert a[1..][..k - 1] == a[..k][1..] == b[..k][1..] == b[1..][..k - 1];
          assert Less(a[1..][k - 1], b[1..][k - 1]);
        }
      }
    }
  }

  lemma {:induction false} MembersFirst(a: seq<Member>, b: seq<Member>)
    requires |a| == |b|
    ensures MembersLess(a, b) <==> exists k :: 0 <= k < |a| && a[..k] == b[..k] && PairLess(a[k], b[k])
    decreases |a|
  {
    if a != [] {
      PairTrichotomy(a[0], b[0]);
      MembersFirst(a[1..], b[1..]);
      if PairLess(a[0], b[0]) {
        assert a[..0] == b[..0];
      } else if a[0] == b[0] && MembersLess(a[1..], b[1..]) {
        var k :| 0 <= k < |a| - 1 && a[1..][..k] == b[1..][..k] && PairLess(a[1..][k], b[1..][k]);
        assert a[..k + 1] == [a[0]] + a[1..][..k] && b[..k + 1] == [b[0]] + b[1..][..k];
        assert a[k + 1] == a[1..][k] && b[k + 1] == b[1..][k];
      }
      forall k | 0 <= k < |a| && a[..k] == b[..k] && PairLess(a[k], b[k]) ensures MembersLess(a, b) {
        if k > 0 {
          assert a[0] == a[..k][0] == b[..k][0];
          assert a[1..][..k - 1] == a[..k][1..] == b[..k][1..] == b[1..][..k - 1];
          assert PairLess(a[1..][k - 1], b[1..][k - 1]);
        }
      }
    }
  }

  /** operator< is that order, for all values. */
  lemma {:induction false} LessIsBefore(a: Value, b: Value)
    ensures Less(a, b) <==> Before(a, b)
    decreases a
  {
    TypesOrdered(a, b);
    if TypeOf(a) == TypeOf(b) {
      match a
      case Str(s) => BytesLessIsDictionary(s, b.s);
      case Array(es) =>
        if |es| == |b.elements| {
          ElementsFirst(es, b.elements);
          forall k | 0 <= k < |es| ensures Less(es[k], b.elements[k]) <==> Before(es[k], b.elements[k]) {
            LessIsBefore(es[k], b.elements[k]);
          }
        }
      case Object(ms) =>
        if |ms| == |b.members| {
          MembersFirst(ms, b.members);
          forall k | 0 <= k < |ms|
            ensures PairLess(ms[k], b.members[k]) <==>
                    Dictionary(ms[k].key, b.members[k].key) ||
                    (ms[k].key == b.members[k].key && Before(ms[k].value, b.members[k].value))
          {
            PairIs(ms[k], b.members[k]);
            LessIsBefore(ms[k].value, b.members[k].value);
          }
        }
      case _ =>
    }
  }

  lemma PairIs(x: Member, y: Member)
    ensures PairLess(x, y) <==> Dictionary(x.key, y.key) || (x.key == y.key && Less(x.value, y.value))
  {
    BytesLessIsDictionary(x.key, y.key);
    BytesTrichotomy(x.key, y.key);
    BytesTrichotomy(y.key, x.key);
  }

  /** compare is negative exactly where that order puts `a` first, and positive where it puts
      `b` first. */
  lemma CompareIsBefore(a: Value, b: Value)
    ensures Compare(a, b) < 0 <==> Before(a, b)
    ensures Compare(a, b) > 0 <==> Before(b, a)
  {
    LessIsBefore(a, b);
    LessIsBefore(b, a);
    Trichotomy(a, b);
  }
}
