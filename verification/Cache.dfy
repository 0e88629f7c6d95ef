/** The two-generation connection cache. */
module Cache {
  import opened Bytes
  import InetDiag
  import opened Archival

  /** A record that has a header, and is in the domain of Compare. */
  type CachedRecord = r: ArchivalRecord | InetDiag.Parses(RawOf(r)) && InfoLongEnough(r)
    witness ArchivalRecord(0, Some(Zeros(InetDiag.SIZEOF_INET_DIAG_MSG)), [], None)

  function CookieOf(r: CachedRecord): U64 {
    InetDiag.Cookie(RawOf(r))
  }

  type Generation = map<U64, CachedRecord>

  datatype Generations = Generations(current: Generation, previous: Generation)

  const EMPTY_CACHE := Generations(map[], map[])

  /** The cache after Update has stored a record. */
  function Updated(c: Generations, r: CachedRecord): Generations {
    Generations(c.current[CookieOf(r) := r], c.previous - {CookieOf(r)})
  }

  /** What Update returns. */
  function Evicted(c: Generations, cookie: U64): Option<CachedRecord> {
    if cookie in c.previous then Some(c.previous[cookie]) else None
  }

  /** All cookies known to the cache. */
  function Known(c: Generations): set<U64> {
    c.current.Keys + c.previous.Keys
  }

  /** The most recent record of a cookie. */
  function Newest(c: Generations, cookie: U64): CachedRecord
    requires cookie in Known(c)
  {
    if cookie in c.current then c.current[cookie] else c.previous[cookie]
  }

  /** The state of the source's cache: no cookie is in both generations. */
  predicate Disjoint(c: Generations) {
    c.current.Keys !! c.previous.Keys
  }

  // ---------------------------------------------------------------- the history a cache stands for

  /** For each cookie in a list of records, its last record. */
  function LastOf(records: seq<CachedRecord>): (r: Generation)
    ensures forall x :: x in records ==> CookieOf(x) in r
  {
    if records == [] then map[]
    else
      var init, last := records[..|records| - 1], records[|records| - 1];
      assert forall x :: x in records ==> x in init || x == last;
      LastOf(init)[CookieOf(last) := last]
  }

  /** LastOf holds for a cookie exactly the record of its last occurrence. */
  lemma {:induction false} LastOfMeaning(records: seq<CachedRecord>, i: nat)
    requires i < |records|
    requires forall j :: i < j < |records| ==> CookieOf(records[j]) != CookieOf(records[i])
    ensures CookieOf(records[i]) in LastOf(records) && LastOf(records)[CookieOf(records[i])] == records[i]
  {
    if i < |records| - 1 {
      LastOfMeaning(records[..|records| - 1], i);
    }
  }

  lemma {:induction false} LastOfKeys(records: seq<CachedRecord>, cookie: U64)
    ensures cookie in LastOf(records) ==>
      LastOf(records)[cookie] in records && CookieOf(LastOf(records)[cookie]) == cookie
  {
    if records == [] {
    } else {
      LastOfKeys(records[..|records| - 1], cookie);
    }
  }

  predicate Occurs(records: seq<CachedRecord>, cookie: U64) {
    exists i :: 0 <= i < |records| && CookieOf(records[i]) == cookie
  }

  lemma OccursIsKey(records: seq<CachedRecord>, cookie: U64)
    ensures cookie in LastOf(records) <==> Occurs(records, cookie)
  {
    LastOfKeys(records, cookie);
    if Occurs(records, cookie) {
      var i :| 0 <= i < |records| && CookieOf(records[i]) == cookie;
      assert records[i] in records;
    }
  }

  /** The generations that stand for the finished cycle past and the unfinished cycle now. */
  function GenerationsOf(past: seq<CachedRecord>, now: seq<CachedRecord>): (c: Generations)
    ensures Disjoint(c)
  {
    Generations(LastOf(now), LastOf(past) - LastOf(now).Keys)
  }

  lemma LastOfSnoc(records: seq<CachedRecord>, r: CachedRecord)
    ensures LastOf(records + [r]) == LastOf(records)[CookieOf(r) := r]
  {
    assert (records + [r])[..|records|] == records;
  }

  lemma RemoveTwice(m: Generation, keys: set<U64>, cookie: U64)
    ensures (m - keys) - {cookie} == m - (keys + {cookie})
  {
  }

  /** Update appends to the current cycle, and tells of the past cycle on a cookie's first occurrence only. */
  lemma UpdateRefinesHistory(past: seq<CachedRecord>, now: seq<CachedRecord>, r: CachedRecord)
    ensures Updated(GenerationsOf(past, now), r) == GenerationsOf(past, now + [r])
    ensures Evicted(GenerationsOf(past, now), CookieOf(r)) == Recalled(past, now, CookieOf(r))
  {
    LastOfSnoc(now, r);
    RemoveTwice(LastOf(past), LastOf(now).Keys, CookieOf(r));
    assert LastOf(now + [r]).Keys == LastOf(now).Keys + {CookieOf(r)};
    OccursIsKey(past, CookieOf(r));
    OccursIsKey(now, CookieOf(r));
  }

  /** The past cycle's last record of a cookie, unless the cookie has already come back. */
  ghost function Recalled(past: seq<CachedRecord>, now: seq<CachedRecord>, cookie: U64): Option<CachedRecord> {
    if Occurs(past, cookie) && !Occurs(now, cookie) then
      OccursIsKey(past, cookie);
      Some(LastOf(past)[cookie])
    else None
  }

  /** EndCycle hands out the last records of exactly the cookies of the past cycle that did not come back. */
  lemma EndCycleRefinesHistory(past: seq<CachedRecord>, now: seq<CachedRecord>, cookie: U64)
    ensures
      var residual := GenerationsOf(past, now).previous;
      && (cookie in residual <==> Occurs(past, cookie) && !Occurs(now, cookie))
      && (cookie in residual ==> residual[cookie] == LastOf(past)[cookie])
    ensures Generations(map[], GenerationsOf(past, now).current) == GenerationsOf(now, [])
  {
    OccursIsKey(past, cookie);
    OccursIsKey(now, cookie);
    assert LastOf(now) - LastOf([]).Keys == LastOf(now);
  }

  class Cache {
    var current: Generation
    var previous: Generation
    var cycles: nat

    // The records of the last finished cycle and of the unfinished one, in order of arrival.
    ghost var past: seq<CachedRecord>
    ghost var now: seq<CachedRecord>

    ghost predicate Valid()
      reads this
    {
      Contents() == GenerationsOf(past, now)
    }

    ghost function Contents(): Generations
      reads this
    {
      Generations(current, previous)
    }

    constructor ()
      ensures Valid() && Contents() == EMPTY_CACHE && cycles == 0
      ensures past == [] && now == []
    {
      current, previous, cycles := map[], map[], 0;
      past, now := [], [];
    }

    /** Stores a record; ok is false, and nothing changes, when it has no header. */
    method Update(msg: ArchivalRecord) returns (evicted: Option<CachedRecord>, ok: bool)
      requires Valid()
      requires InfoLongEnough(msg)
      modifies this
      ensures Valid() && cycles == old(cycles) && past == old(past)
      ensures ok == InetDiag.Parses(RawOf(msg))
      ensures !ok ==> Contents() == old(Contents()) && now == old(now) && evicted.None?
      ensures ok ==>
        && now == old(now) + [msg]
        && Contents() == Updated(old(Contents()), msg)
        && evicted == Evicted(old(Contents()), CookieOf(msg))
        && evicted == Recalled(past, old(now), CookieOf(msg))
    {
      if !InetDiag.Parses(RawOf(msg)) {
        return None, false;
      }
      ok := true;
      UpdateRefinesHistory(past, now, msg);
      evicted := Swap(CookieOf(msg), msg);
      now := now + [msg];
    }

    method Swap(cookie: U64, msg: CachedRecord) returns (evicted: Option<CachedRecord>)
      modifies this`current, this`previous
      ensures Contents() == Generations(old(current)[cookie := msg], old(previous) - {cookie})
      ensures evicted == Evicted(old(Contents()), cookie)
    {
      current := current[cookie := msg];
      if cookie in previous {
        evicted := Some(previous[cookie]);
        previous := previous - {cookie};
      } else {
        evicted := None;
        assert previous - {cookie} == previous;
      }
    }

    /** Starts a new cycle and hands out the records that were not replaced in the finished one. */
    method EndCycle() returns (residual: Generation)
      requires Valid()
      modifies this
      ensures Valid() && cycles == old(cycles) + 1
      ensures past == old(now) && now == []
      ensures residual == old(previous) && Contents() == Generations(map[], old(current))
      ensures forall cookie :: cookie in residual <==> Occurs(old(past), cookie) && !Occurs(old(now), cookie)
      ensures forall cookie :: cookie in residual ==>
        cookie in LastOf(old(past)) && residual[cookie] == LastOf(old(past))[cookie]
    {
      forall cookie: U64
        ensures cookie in previous <==> Occurs(past, cookie) && !Occurs(now, cookie)
        ensures cookie in previous ==> cookie in LastOf(past) && previous[cookie] == LastOf(past)[cookie]
      {
        EndCycleRefinesHistory(past, now, cookie);
      }
      EndCycleRefinesHistory(past, now, 0);
      residual := previous;
      previous := current;
      current := map[];
      cycles := cycles + 1;
      past, now := now, [];
    }
  }
}
