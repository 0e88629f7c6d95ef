/** ClosingStats and ClosingTotals: which connections they are about, and when they agree. */
module ClosingTotals {
  import opened Bytes
  import InetDiag
  import opened Archival
  import opened Cache
  import opened SaverModel
  import opened Sums
  import opened Accounting
  import FlowEvents
  import DeltaLog
  import opened SmallRuns

  /** A cookie whose closing stats are held does not come back with DiagInfo. */
  predicate NoComeback(s: State, a: Action) {
    a.Receive? && InetDiag.Parses(RawOf(a.record)) && HasDiagInfo(a.record) ==>
      InetDiag.Cookie(RawOf(a.record)) !in s.core.closing.stats
  }

  predicate RunNoComeback(env: Env, actions: seq<Action>)
    requires IsRun(env, actions)
  {
    actions == [] ||
    (var n := |actions| - 1;
     RunSplits(env, actions);
     RunNoComeback(env, actions[..n]) && NoComeback(After(env, actions[..n]), actions[n]))
  }

  /** Closing stats are held only for cookies whose latest record lacks DiagInfo. */
  predicate KeysFit(counted: Generation, waiting: Generation, stats: map<U64, Stats>) {
    forall c :: c in stats ==> c in counted.Keys + waiting.Keys && !HasDiagInfo(Latest(counted, waiting, c))
  }

  predicate KeysLackInfo(s: State) {
    s.phase.Receiving? || s.phase.Expiring? ==> KeysFit(CountedIn(s), WaitingIn(s), s.core.closing.stats)
  }

  ghost predicate TotalsMatch(k: Counter, s: State, x: Exact) {
    Of(k, x.totals) == Sum(k, s.core.closing.stats)
  }

  // ---------------------------------------------------------------- Receive

  lemma NoteKeepsKeys(cache: Generations, closing: Closing, r: CachedRecord)
    requires KeysFit(cache.current, cache.previous, closing.stats)
    ensures
      var c := CookieOf(r);
      var closing' := if c in cache.previous then NoteClosing(closing, c, r, cache.previous[c]) else closing;
      KeysFit(cache.current[c := r], cache.previous - {c}, closing'.stats) <==> !(HasDiagInfo(r) && c in closing.stats)
  {
    var c := CookieOf(r);
    var closing' := if c in cache.previous then NoteClosing(closing, c, r, cache.previous[c]) else closing;
    var current', previous' := cache.current[c := r], cache.previous - {c};
    assert Latest(current', previous', c) == r;
    if !(HasDiagInfo(r) && c in closing.stats) {
      forall d | d in closing'.stats
        ensures d in current'.Keys + previous'.Keys && !HasDiagInfo(Latest(current', previous', d)) {
        assert d != c ==>
          d in closing.stats && Latest(current', previous', d) == Latest(cache.current, cache.previous, d);
      }
    }
  }

  lemma ReceiveClosing(env: Env, s: State, r: CachedRecord)
    requires Enabled(s, Receive(r))
    ensures
      var c := CookieOf(r);
      Step(env, s, Receive(r)).core.closing ==
        if c in s.core.cache.previous then NoteClosing(s.core.closing, c, r, s.core.cache.previous[c])
        else s.core.closing
  {
  }

  // ---------------------------------------------------------------- one step

  lemma ExpireKeepsKeys(previous: Generation, residual: Generation, closing: Closing, c: U64)
    requires KeysFit(previous, residual, closing.stats) && c in residual && c !in previous
    ensures KeysFit(previous, residual - {c}, DropClosing(closing, c, residual[c]).stats)
  {
    var closing' := DropClosing(closing, c, residual[c]);
    assert Latest(previous, residual, c) == residual[c];
    forall d | d in closing'.stats
      ensures d in previous.Keys + (residual - {c}).Keys && !HasDiagInfo(Latest(previous, residual - {c}, d))
    {
      assert d in closing.stats && d != c;
      assert Latest(previous, residual - {c}, d) == Latest(previous, residual, d);
    }
  }

  lemma TurnKeepsKeys(g: Generation, stats: map<U64, Stats>)
    requires KeysFit(g, map[], stats)
    ensures KeysFit(map[], g, stats)
  {
    forall c | c in stats ensures c in g && !HasDiagInfo(Latest(map[], g, c)) {
      assert Latest(g, map[], c) == Latest(map[], g, c);
    }
  }

  lemma ScrubKeepsKeys(s: State, place: Place, c: U64, r: CachedRecord)
    requires Enabled(s, Scrub(place, c, r)) && KeysLackInfo(s)
    ensures KeysLackInfo(Scrubbed(s, place, c, r))
  {
    var s' := Scrubbed(s, place, c, r);
    ScrubKeepsStats(GenerationAt(s, place), c, r);
    if s.phase.Receiving? || s.phase.Expiring? {
      forall d | d in s.core.closing.stats
        ensures d in CountedIn(s').Keys + WaitingIn(s').Keys && !HasDiagInfo(Latest(CountedIn(s'), WaitingIn(s'), d))
      {
        assert !HasDiagInfo(Latest(CountedIn(s), WaitingIn(s), d));
      }
    }
  }

  lemma StepKeepsKeys(env: Env, s: State, a: Action)
    requires Enabled(s, a) && NoComeback(s, a)
    requires FlowEvents.CacheInv(s) && KeysLackInfo(s)
    ensures KeysLackInfo(Step(env, s, a))
  {
    match a
    case Receive(r) =>
      if InetDiag.Parses(RawOf(r)) {
        ReceiveParts(env, s, r);
        ReceiveClosing(env, s, r);
        NoteKeepsKeys(s.core.cache, s.core.closing, r);
      }
    case ExpireOne(c) => ExpireKeepsKeys(s.core.cache.previous, s.residual, s.core.closing, c);
    case EndBlock(_) => TurnKeepsKeys(s.core.cache.previous, s.core.closing.stats);
    case Scrub(place, c, r) => ScrubKeepsKeys(s, place, c, r);
    case EndCycle =>
    case Close =>
    case CloseOne(_) =>
    case Stop =>
  }

  lemma {:induction false} RunKeepsKeys(env: Env, actions: seq<Action>)
    requires IsRun(env, actions) && RunNoComeback(env, actions)
    ensures KeysLackInfo(After(env, actions))
  {
    if actions == [] {
    } else {
      var n := |actions| - 1;
      RunSplits(env, actions);
      RunKeepsKeys(env, actions[..n]);
      DeltaLog.RunKeepsLog(env, actions[..n]);
      StepKeepsKeys(env, After(env, actions[..n]), actions[n]);
    }
  }

  /** Exactly: a record keeps the closing stats about closing cookies if and only if it is no comeback. */
  lemma ComebackBreaksKeys(env: Env, s: State, r: CachedRecord)
    requires Enabled(s, Receive(r)) && KeysLackInfo(s)
    ensures KeysLackInfo(Step(env, s, Receive(r))) <==> NoComeback(s, Receive(r))
  {
    ReceiveParts(env, s, r);
    ReceiveClosing(env, s, r);
    NoteKeepsKeys(s.core.cache, s.core.closing, r);
  }

  // ---------------------------------------------------------------- the sum

  /** A record stores closing stats for a cookie that has some already: a second loss of DiagInfo. */
  predicate StoresAgain(s: State, a: Action) {
    && a.Receive? && InetDiag.Parses(RawOf(a.record)) && !HasDiagInfo(a.record)
    && var c := InetDiag.Cookie(RawOf(a.record));
       c in s.core.cache.previous && HasDiagInfo(s.core.cache.previous[c]) && c in s.core.closing.stats
  }

  /** The entry that is then overwritten. */
  function Overwritten(s: State, a: Action): Stats {
    if StoresAgain(s, a) then s.core.closing.stats[InetDiag.Cookie(RawOf(a.record))] else NO_BYTES
  }

  function OverwrittenIn(k: Counter, env: Env, actions: seq<Action>): int
    requires IsRun(env, actions)
  {
    if actions == [] then 0
    else
      var n := |actions| - 1;
      RunSplits(env, actions);
      OverwrittenIn(k, env, actions[..n]) + Of(k, Overwritten(After(env, actions[..n]), actions[n]))
  }

  /** No entry with bytes in it is ever overwritten. */
  predicate NeverOverwrites(k: Counter, env: Env, actions: seq<Action>)
    requires IsRun(env, actions)
  {
    actions == [] ||
    (var n := |actions| - 1;
     RunSplits(env, actions);
     && NeverOverwrites(k, env, actions[..n])
     && Of(k, Overwritten(After(env, actions[..n]), actions[n])) == 0)
  }

  lemma ReceiveMovesSum(k: Counter, env: Env, s: State, x: Exact, r: CachedRecord)
    requires Enabled(s, Receive(r))
    ensures
      Of(k, ExactStep(s, x, Receive(r)).totals) - Sum(k, Step(env, s, Receive(r)).core.closing.stats) ==
      Of(k, x.totals) - Sum(k, s.core.closing.stats) + Of(k, Overwritten(s, Receive(r)))
  {
    var c := CookieOf(r);
    ReceiveClosing(env, s, r);
    if c in s.core.cache.previous {
      SumApart(k, s.core.closing.stats, c, GetStats(s.core.cache.previous[c]));
    }
  }

  lemma ExpireMovesSum(k: Counter, closing: Closing, c: U64, r: CachedRecord)
    ensures Sum(k, closing.stats) - Of(k, Released(closing, c, r)) == Sum(k, DropClosing(closing, c, r).stats)
  {
    if !HasDiagInfo(r) && c in closing.stats {
      SumRemove(k, closing.stats, c);
    }
  }

  /** Only overwriting moves ClosingTotals away from the sum of ClosingStats. */
  lemma StepMovesSum(k: Counter, env: Env, s: State, x: Exact, a: Action)
    requires Enabled(s, a)
    ensures
      Of(k, ExactStep(s, x, a).totals) - Sum(k, Step(env, s, a).core.closing.stats) ==
      Of(k, x.totals) - Sum(k, s.core.closing.stats) + Of(k, Overwritten(s, a))
  {
    match a
    case Receive(r) =>
      if InetDiag.Parses(RawOf(r)) {
        ReceiveMovesSum(k, env, s, x, r);
      }
    case ExpireOne(c) => ExpireMovesSum(k, s.core.closing, c, s.residual[c]);
    case _ =>
  }

  /** Exactly: an action keeps the sum right if and only if it does not overwrite an entry with bytes in it. */
  lemma OverwritingBreaksSum(k: Counter, env: Env, s: State, x: Exact, a: Action)
    requires Enabled(s, a) && TotalsMatch(k, s, x)
    ensures TotalsMatch(k, Step(env, s, a), ExactStep(s, x, a)) <==>
      !(StoresAgain(s, a) && Of(k, Overwritten(s, a)) != 0)
  {
    StepMovesSum(k, env, s, x, a);
  }

  /** In every run, ClosingTotals before wrap-around is the sum of ClosingStats plus all that was overwritten. */
  lemma {:induction false} TotalsAreSumsAndOverwritten(k: Counter, env: Env, actions: seq<Action>)
    requires IsRun(env, actions)
    ensures Of(k, ExactOf(env, actions).totals) ==
      Sum(k, After(env, actions).core.closing.stats) + OverwrittenIn(k, env, actions)
  {
    if actions == [] {
    } else {
      var n := |actions| - 1;
      RunSplits(env, actions);
      TotalsAreSumsAndOverwritten(k, env, actions[..n]);
      StepMovesSum(k, env, After(env, actions[..n]), ExactOf(env, actions[..n]), actions[n]);
    }
  }

  lemma {:induction false} RunStatsNonnegative(env: Env, actions: seq<Action>)
    requires IsRun(env, actions)
    ensures Nonnegative(After(env, actions).core.closing.stats)
  {
    if actions == [] {
    } else {
      var n := |actions| - 1;
      RunSplits(env, actions);
      RunStatsNonnegative(env, actions[..n]);
      var s, a := After(env, actions[..n]), actions[n];
      if a.Receive? && InetDiag.Parses(RawOf(a.record)) {
        ReceiveClosing(env, s, a.record);
      }
    }
  }

  lemma {:induction false} OverwrittenExact(k: Counter, env: Env, actions: seq<Action>)
    requires IsRun(env, actions)
    ensures OverwrittenIn(k, env, actions) >= 0
    ensures OverwrittenIn(k, env, actions) == 0 <==> NeverOverwrites(k, env, actions)
  {
    if actions == [] {
    } else {
      var n := |actions| - 1;
      RunSplits(env, actions);
      OverwrittenExact(k, env, actions[..n]);
      RunStatsNonnegative(env, actions[..n]);
    }
  }

  /** Without a comeback there is nothing to overwrite. */
  lemma {:induction false} NoComebackNeverOverwrites(k: Counter, env: Env, actions: seq<Action>)
    requires IsRun(env, actions) && RunNoComeback(env, actions)
    ensures NeverOverwrites(k, env, actions)
  {
    if actions == [] {
    } else {
      var n := |actions| - 1;
      RunSplits(env, actions);
      NoComebackNeverOverwrites(k, env, actions[..n]);
      RunKeepsKeys(env, actions[..n]);
      DeltaLog.RunKeepsLog(env, actions[..n]);
      KeysPreventOverwriting(After(env, actions[..n]), actions[n]);
    }
  }

  lemma KeysPreventOverwriting(s: State, a: Action)
    requires Enabled(s, a) && FlowEvents.CacheInv(s) && KeysLackInfo(s)
    ensures !StoresAgain(s, a)
  {
    var current, previous := s.core.cache.current, s.core.cache.previous;
    assert forall c :: c in previous ==> Latest(current, previous, c) == previous[c];
  }

  // ---------------------------------------------------------------- results

  /** An entry is not above a total that covers all entries. */
  lemma EntryWithinTotal(k: Counter, stats: map<U64, Stats>, total: int, c: U64)
    requires Nonnegative(stats) && c in stats && Sum(k, stats) <= total
    ensures Of(k, stats[c]) <= total
  {
    SumRemove(k, stats, c);
    SumNonnegative(k, stats - {c});
  }

  /**
    ClosingTotals is, as uint64, the sum of ClosingStats plus what was overwritten. When that fits 64 bits,
    ClosingTotals is the sum of ClosingStats if and only if nothing was overwritten; and, overwritten or not, taking
    out any entry does not underflow.
   */
  ghost predicate TotalsTell(k: Counter, closing: Closing, overwritten: int) {
    && Of(k, closing.totals) == Wrap(Sum(k, closing.stats) + overwritten)
    && (Sum(k, closing.stats) + overwritten < TWO64 ==>
          && (Of(k, closing.totals) == Sum(k, closing.stats) <==> overwritten == 0)
          && forall c :: c in closing.stats ==> Of(k, closing.stats[c]) <= Of(k, closing.totals))
  }

  /** What TotalDecides needs to know of a total. */
  ghost predicate TotalCovers(k: Counter, closing: Closing, overwritten: int) {
    && overwritten >= 0 && Nonnegative(closing.stats)
    && Of(k, closing.totals) == Wrap(Sum(k, closing.stats) + overwritten)
  }

  lemma TotalDecides(k: Counter, closing: Closing, overwritten: int)
    requires TotalCovers(k, closing, overwritten)
    ensures TotalsTell(k, closing, overwritten)
  {
    SumNonnegative(k, closing.stats);
    if Sum(k, closing.stats) + overwritten < TWO64 {
      forall c | c in closing.stats ensures Of(k, closing.stats[c]) <= Of(k, closing.totals) {
        EntryWithinTotal(k, closing.stats, Of(k, closing.totals), c);
      }
    }
  }

  lemma WrapOne(k: Counter, x: Stats)
    ensures Of(k, WrapBoth(x)) == Wrap(Of(k, x))
  {
  }

  lemma ClosingTotalsWrap(k: Counter, env: Env, actions: seq<Action>)
    requires IsRun(env, actions)
    ensures
      var closing := After(env, actions).core.closing;
      Of(k, closing.totals) == Wrap(Sum(k, closing.stats) + OverwrittenIn(k, env, actions))
  {
    var x := ExactOf(env, actions).totals;
    assert After(env, actions).core.closing.totals == WrapBoth(x) by {
      RunTracks(env, actions);
    }
    WrapOne(k, x);
    TotalsAreSumsAndOverwritten(k, env, actions);
  }

  lemma RunCovers(k: Counter, env: Env, actions: seq<Action>)
    requires IsRun(env, actions)
    ensures TotalCovers(k, After(env, actions).core.closing, OverwrittenIn(k, env, actions))
  {
    ClosingTotalsWrap(k, env, actions);
    OverwrittenExact(k, env, actions);
    RunStatsNonnegative(env, actions);
  }

  /** This holds in every run. By OverwrittenExact, nothing was overwritten if and only if no entry with bytes was. */
  lemma ClosingTotalsExact(k: Counter, env: Env, actions: seq<Action>)
    requires IsRun(env, actions)
    ensures TotalsTell(k, After(env, actions).core.closing, OverwrittenIn(k, env, actions))
  {
    RunCovers(k, env, actions);
    TotalDecides(k, After(env, actions).core.closing, OverwrittenIn(k, env, actions));
  }

  /** As long as no closing cookie comes back with DiagInfo, ClosingTotals is the sum of ClosingStats as uint64. */
  lemma ClosingTotalsAreSums(k: Counter, env: Env, actions: seq<Action>)
    requires IsRun(env, actions) && RunNoComeback(env, actions)
    ensures TotalsTell(k, After(env, actions).core.closing, 0)
  {
    NoComebackNeverOverwrites(k, env, actions);
    OverwrittenExact(k, env, actions);
    ClosingTotalsExact(k, env, actions);
  }

  // ---------------------------------------------------------------- how it goes wrong

  /** A connection shows its counters, hides them, shows them again and hides them again, a block each. */
  function HidesTwice(shown: CachedRecord, hidden: CachedRecord, t: Time): seq<Action> {
    OneRecord(OneRecord(OneRecord(OneRecord([], shown, t), hidden, t), shown, t), hidden, t)
  }

  lemma HidesOnce(env: Env, before: seq<Action>, shown: CachedRecord, hidden: CachedRecord, t: Time)
    requires CookieOf(shown) == CookieOf(hidden) && HasDiagInfo(shown) && !HasDiagInfo(hidden)
    requires IsRun(env, before)
    requires
      var s := After(env, before);
      && Between(s, CookieOf(shown))
      && (CookieOf(shown) in s.core.cache.previous ==> !HasDiagInfo(s.core.cache.previous[CookieOf(shown)]))
    ensures
      var run := OneRecord(OneRecord(before, shown, t), hidden, t);
      && IsRun(env, run)
      && var s, s' := After(env, before), After(env, run);
      && Between(s', CookieOf(shown)) && s'.core.cache.previous == map[CookieOf(shown) := hidden]
      && s'.core.closing.stats == s.core.closing.stats[CookieOf(shown) := GetStats(shown)]
      && s'.core.closing.totals == Add(s.core.closing.totals, GetStats(shown))
  {
    OneRecordRuns(env, before, shown, t);
    OneRecordRuns(env, OneRecord(before, shown, t), hidden, t);
  }

  /** ClosingTotals then has the bytes of the connection twice, and ClosingStats once. */
  lemma SecondLossBreaksSum(env: Env, shown: CachedRecord, hidden: CachedRecord, t: Time)
    requires CookieOf(shown) == CookieOf(hidden) && HasDiagInfo(shown) && !HasDiagInfo(hidden)
    requires 0 < GetStats(shown).sent && 2 * GetStats(shown).sent < TWO64
    ensures
      var run := HidesTwice(shown, hidden, t);
      && IsRun(env, run)
      && var closing := After(env, run).core.closing;
      && closing.stats == map[CookieOf(shown) := GetStats(shown)]
      && closing.totals.sent == 2 * GetStats(shown).sent
      && Sum(Sent, closing.stats) == GetStats(shown).sent
  {
    var before := OneRecord(OneRecord([], shown, t), hidden, t);
    HidesOnce(env, [], shown, hidden, t);
    HidesOnce(env, before, shown, hidden, t);
    var closing := After(env, HidesTwice(shown, hidden, t)).core.closing;
    SumRemove(Sent, closing.stats, CookieOf(shown));
    assert closing.stats - {CookieOf(shown)} == map[];
  }
}
