/** Sums of byte counts, exact and modulo 2^64. */
module Sums {
  import opened Bytes
  import opened Archival
  import opened SaverModel

  /** One half of a pair of byte counts. */
  datatype Counter = Sent | Received

  function Of(k: Counter, s: Stats): int {
    match k
    case Sent => s.sent
    case Received => s.received
  }

  ghost function Sum(k: Counter, m: map<U64, Stats>): int {
    if m == map[] then 0
    else
      var c: U64 :| c in m;
      Of(k, m[c]) + Sum(k, m - {c})
  }

  lemma {:induction false} SumRemove(k: Counter, m: map<U64, Stats>, c: U64)
    requires c in m
    ensures Sum(k, m) == Of(k, m[c]) + Sum(k, m - {c})
    decreases |m|
  {
    var d: U64 :| d in m && Sum(k, m) == Of(k, m[d]) + Sum(k, m - {d});
    if c != d {
      var withoutC, withoutD, rest := m - {c}, m - {d}, m - {c, d};
      SumRemove(k, withoutD, c);
      SumRemove(k, withoutC, d);
      assert withoutD - {c} == rest && withoutC - {d} == rest;
    }
  }

  /** The sum with one key taken apart, whether it is there or not. */
  lemma SumApart(k: Counter, m: map<U64, Stats>, c: U64, x: Stats)
    ensures Sum(k, m[c := x]) == Of(k, x) + Sum(k, m - {c})
    ensures Sum(k, m) == (if c in m then Of(k, m[c]) else 0) + Sum(k, m - {c})
  {
    SumRemove(k, m[c := x], c);
    assert m[c := x] - {c} == m - {c};
    if c in m {
      SumRemove(k, m, c);
    } else {
      assert m - {c} == m;
    }
  }

  predicate Nonnegative(m: map<U64, Stats>) {
    forall c :: c in m ==> m[c].sent >= 0 && m[c].received >= 0
  }

  lemma {:induction false} SumNonnegative(k: Counter, m: map<U64, Stats>)
    requires Nonnegative(m)
    ensures Sum(k, m) >= 0
    decreases |m|
  {
    if m == map[] {
    } else {
      var c: U64 :| c in m;
      SumRemove(k, m, c);
      SumNonnegative(k, m - {c});
    }
  }

  function Minus(a: Stats, b: Stats): Stats {
    Stats(a.sent - b.sent, a.received - b.received)
  }

  /** Adding and subtracting as uint64 keeps track of the exact result. */
  lemma WrapFollows(a: Stats, b: Stats)
    ensures Add(WrapBoth(a), b) == WrapBoth(Plus(a, b))
    ensures Subtract(WrapBoth(a), b) == WrapBoth(Minus(a, b))
  {
    WrapAdd(a.sent, b.sent);
    WrapAdd(a.received, b.received);
  }

  lemma WrapThree(a: int, b: int, c: int)
    ensures Wrap(Wrap(a) + Wrap(b) + Wrap(c)) == Wrap(a + b + c)
  {
    WrapAdd(a, Wrap(b) + Wrap(c));
    WrapAdd(b, a + Wrap(c));
    WrapAdd(c, a + b);
  }
}
