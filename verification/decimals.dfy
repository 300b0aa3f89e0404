/** Decimal numerals, as the JSON reader, the HTTP parser and the URL splitter all read them. */
module Decimals {
  import opened Bytes

  predicate AllDigits(ds: Bytes) {
    forall k :: 0 <= k < |ds| ==> IsDigit(ds[k])
  }

  /** The number denoted by the digits `ds` written after a numeral of value `v`. */
  function Numeral(v: nat, ds: Bytes): (n: nat)
    requires AllDigits(ds)
    ensures n >= v && (ds != [] ==> n >= 10 * v)
    decreases |ds|
  {
    if ds == [] then v else Numeral(10 * v + (ds[0] - 48), ds[1..])
  }

  lemma {:induction false} NumeralAppend(v: nat, ds: Bytes, d: byte)
    requires AllDigits(ds) && IsDigit(d)
    ensures AllDigits(ds + [d]) && Numeral(v, ds + [d]) == 10 * Numeral(v, ds) + (d - 48)
    decreases |ds|
  {
    if ds == [] {
      assert ds + [d] == [d] && [d][1..] == [];
    } else {
      NumeralAppend(10 * v + (ds[0] - 48), ds[1..], d);
      assert (ds + [d])[1..] == ds[1..] + [d];
    }
  }
}
