/** Runs in which the totals are wrong, and why. */
module Miscounts {
  import opened Bytes
  import InetDiag
  import opened Archival
  import opened Cache
  import opened SaverModel
  import opened Sums
  import opened Accounting
  import opened Conservation
  import opened SmallRuns

  /** A block with one record, up to its report. */
  function LastBlock(before: seq<Action>, r: CachedRecord): seq<Action> {
    before + [Receive(r)] + [EndCycle]
  }

  // ---------------------------------------------------------------- ledgers of small runs

  lemma LedgerSnoc(v: View, actions: seq<Action>, a: Action)
    ensures LedgerOf(v, actions + [a]) == Book(v, LedgerOf(v, actions), a)
  {
    assert (actions + [a])[..|actions|] == actions;
  }

  lemma InOrderSnoc(actions: seq<Action>, a: Action)
    requires RunInOrder(actions) && InOrder(LedgerOf(ByTable, actions), a)
    ensures RunInOrder(actions + [a])
  {
    assert (actions + [a])[..|actions|] == actions;
  }

  /** One session of one cookie, of which this many bytes were sent, regained and, in this block, seen. */
  predicate Lone(l: Ledger, c: U64, sent: int, visible: bool, excess: int, cycle: set<U64>) {
    && l.sessions.Keys == {c} && l.sessions[c].last.sent == sent && l.sessions[c].visible == visible
    && l.finished.sent == 0 && l.excess.sent == excess && l.dropped.sent == 0 && l.doubled.sent == 0
    && l.cycle == cycle
  }

  lemma LoneTruth(l: Ledger, c: U64, sent: int, visible: bool, excess: int, cycle: set<U64>)
    requires Lone(l, c, sent, visible, excess, cycle)
    ensures Truth(Sent, l) == sent && Expected(Sent, l) == sent + excess
  {
    SumRemove(Sent, Lasts(l), c);
    assert Lasts(l) - {c} == map[];
  }

  lemma LoneBegins(v: View, r: CachedRecord)
    requires Seen(v, r).Some?
    ensures Lone(Book(v, NEW_LEDGER, Receive(r)), CookieOf(r), Seen(v, r).value.sent, true, 0, {CookieOf(r)})
  {
  }

  lemma LoneHides(v: View, l: Ledger, r: CachedRecord, sent: int)
    requires Lone(l, CookieOf(r), sent, true, 0, {}) && Seen(v, r).None?
    ensures Lone(Book(v, l, Receive(r)), CookieOf(r), sent, false, 0, {CookieOf(r)})
  {
  }

  lemma LoneReturns(v: View, l: Ledger, r: CachedRecord, sent: int)
    requires Lone(l, CookieOf(r), sent, false, 0, {}) && Seen(v, r).Some?
    ensures Lone(Book(v, l, Receive(r)), CookieOf(r), Seen(v, r).value.sent, true, sent, {CookieOf(r)})
  {
  }

  lemma LoneEnds(v: View, l: Ledger, c: U64, sent: int, visible: bool, excess: int, cycle: set<U64>, t: Time)
    requires Lone(l, c, sent, visible, excess, cycle)
    ensures Lone(Book(v, Book(v, l, EndCycle), EndBlock(t)), c, sent, visible, excess, {})
  {
  }

  lemma BlockLedger(v: View, before: seq<Action>, r: CachedRecord, t: Time)
    ensures LedgerOf(v, OneRecord(before, r, t)) ==
      Book(v, Book(v, Book(v, LedgerOf(v, before), Receive(r)), EndCycle), EndBlock(t))
  {
    LedgerSnoc(v, before, Receive(r));
    LedgerSnoc(v, before + [Receive(r)], EndCycle);
    LedgerSnoc(v, before + [Receive(r)] + [EndCycle], EndBlock(t));
  }

  lemma BlockInOrder(before: seq<Action>, r: CachedRecord, t: Time)
    requires RunInOrder(before) && LedgerOf(ByTable, before).cycle == {}
    ensures RunInOrder(LastBlock(before, r)) && RunInOrder(OneRecord(before, r, t))
    ensures LedgerOf(ByTable, OneRecord(before, r, t)).cycle == {}
  {
    InOrderSnoc(before, Receive(r));
    InOrderSnoc(before + [Receive(r)], EndCycle);
    InOrderSnoc(before + [Receive(r)] + [EndCycle], EndBlock(t));
    BlockLedger(ByTable, before, r, t);
  }

  // ---------------------------------------------------------------- counters lost and regained

  /** A connection shows its counters, hides them, and shows them again. */
  function ReturnRun(shown: CachedRecord, hidden: CachedRecord, t: Time): seq<Action> {
    LastBlock(OneRecord(OneRecord([], shown, t), hidden, t), shown)
  }

  lemma ReturnLedger(v: View, shown: CachedRecord, hidden: CachedRecord, t: Time, x: int)
    requires CookieOf(shown) == CookieOf(hidden) && Seen(v, hidden).None?
    requires Seen(v, shown).Some? && Seen(v, shown).value.sent == x
    ensures Lone(LedgerOf(v, ReturnRun(shown, hidden, t)), CookieOf(shown), x, true, x, {CookieOf(shown)})
  {
    var c := CookieOf(shown);
    var first := OneRecord([], shown, t);
    BlockLedger(v, [], shown, t);
    LoneBegins(v, shown);
    LoneEnds(v, Book(v, NEW_LEDGER, Receive(shown)), c, x, true, 0, {c}, t);
    var second := OneRecord(first, hidden, t);
    BlockLedger(v, first, hidden, t);
    LoneHides(v, LedgerOf(v, first), hidden, x);
    LoneEnds(v, Book(v, LedgerOf(v, first), Receive(hidden)), c, x, false, 0, {c}, t);
    LoneReturns(v, LedgerOf(v, second), shown, x);
    LedgerSnoc(v, second, Receive(shown));
    LedgerSnoc(v, second + [Receive(shown)], EndCycle);
  }

  lemma ReturnIsRun(env: Env, shown: CachedRecord, hidden: CachedRecord, t: Time)
    requires CookieOf(shown) == CookieOf(hidden)
    ensures
      var run := ReturnRun(shown, hidden, t);
      IsRun(env, run) && RunInOrder(run) && AtReport(After(env, run))
  {
    var first := OneRecord([], shown, t);
    OneRecordRuns(env, [], shown, t);
    BlockInOrder([], shown, t);
    var second := OneRecord(first, hidden, t);
    OneRecordRuns(env, first, hidden, t);
    BlockInOrder(first, hidden, t);
    RunExtends(env, second, Receive(shown));
    ReceiveAlone(env, After(env, second), shown);
    RunExtends(env, second + [Receive(shown)], EndCycle);
    BlockInOrder(second, shown, t);
  }

  /** The totals then have the bytes of the connection twice, and the counters observed once. */
  lemma ReturnCountsTwice(env: Env, shown: CachedRecord, hidden: CachedRecord, t: Time, x: int)
    requires CookieOf(shown) == CookieOf(hidden) && !HasDiagInfo(hidden)
    requires CountersIn(shown).Some? && CountersIn(shown).value.sent == x
    requires 0 < x && 2 * x < TWO64
    ensures
      var run := ReturnRun(shown, hidden, t);
      && IsRun(env, run) && RunInOrder(run) && AtReport(After(env, run))
      && Totals(After(env, run)).sent == 2 * x && Truth(Sent, LedgerOf(BySlot, run)) == x
  {
    var run, c := ReturnRun(shown, hidden, t), CookieOf(shown);
    ReturnIsRun(env, shown, hidden, t);
    ReturnLedger(ByTable, shown, hidden, t, x);
    ReturnLedger(BySlot, shown, hidden, t, x);
    LoneTruth(LedgerOf(ByTable, run), c, x, true, x, {c});
    LoneTruth(LedgerOf(BySlot, run), c, x, true, x, {c});
    BytesAreConserved(Sent, env, run);
  }

  // ---------------------------------------------------------------- tallies of small runs

  /** Books with no bytes sent in them but the live sum and the reported value. */
  predicate Plain(s: State, live: int, reported: int) {
    && s.core.closing.stats == map[] && s.core.closing.totals.sent == 0 && s.residual == map[]
    && s.tally.closed.sent == 0 && s.tally.live.sent == live && s.tally.reported.sent == reported
  }

  /** Such books between two blocks. */
  predicate PlainBetween(s: State, cookie: U64, reported: int) {
    Between(s, cookie) && Plain(s, 0, reported)
  }

  lemma ArrivesPlain(env: Env, s: State, r: CachedRecord, live: int, sum: int, reported: int)
    requires s.phase.Receiving? && Plain(s, live, reported)
    requires 0 <= sum == live + GetStats(r).sent < TWO64
    requires CookieOf(r) in s.core.cache.previous ==> HasDiagInfo(r)
    ensures
      var s' := Step(env, s, Receive(r));
      && Plain(s', sum, reported) && s'.phase.Receiving? && s'.tally.lastReport == s.tally.lastReport
      && s'.core.cache == Updated(s.core.cache, r)
  {
    ReceiveParts(env, s, r);
  }

  lemma EndsPlain(env: Env, s: State, live: int, reported: int)
    requires s.phase.Receiving? && Plain(s, live, reported) && s.core.cache.previous == map[]
    ensures
      var s' := Step(env, s, EndCycle);
      && Plain(s', live, reported) && AtReport(s') && s'.tally.lastReport == s.tally.lastReport
      && s'.core.cache == Generations(map[], s.core.cache.current)
  {
  }

  lemma PlainTotals(s: State, live: int, reported: int)
    requires Plain(s, live, reported) && 0 <= live < TWO64
    ensures Totals(s).sent == live
  {
  }

  lemma ReportsPlain(env: Env, s: State, live: int, t: Time)
    requires AtReport(s) && Plain(s, live, 0) && 0 <= live <= MAX_INCREMENT && Unix(t) > s.tally.lastReport
    ensures
      var s' := Step(env, s, EndBlock(t));
      Plain(s', 0, live) && s'.phase.Receiving? && s'.core.cache == s.core.cache
  {
    PlainTotals(s, live, 0);
  }

  /** A block with one record that has, or seems to have, TCPInfo. */
  lemma LastBlockShows(env: Env, before: seq<Action>, r: CachedRecord, x: int, reported: int)
    requires IsRun(env, before) && PlainBetween(After(env, before), CookieOf(r), reported)
    requires HasDiagInfo(r) && GetStats(r).sent == x
    ensures
      var run := LastBlock(before, r);
      && IsRun(env, run)
      && var s, s' := After(env, before), After(env, run);
      && AtReport(s') && Plain(s', x, reported) && Totals(s').sent == x && s'.tally.lastReport == s.tally.lastReport
      && s'.core.cache == Generations(map[], map[CookieOf(r) := r])
  {
    var s := After(env, before);
    RunExtends(env, before, Receive(r));
    ArrivesPlain(env, s, r, 0, x, reported);
    ReceiveAlone(env, s, r);
    var run := before + [Receive(r)];
    RunExtends(env, run, EndCycle);
    EndsPlain(env, After(env, run), x, reported);
    PlainTotals(After(env, run + [EndCycle]), x, reported);
  }

  lemma ReportRuns(env: Env, before: seq<Action>, cookie: U64, live: int, t: Time)
    requires IsRun(env, before)
    requires
      var s := After(env, before);
      && AtReport(s) && Plain(s, live, 0) && 0 <= live <= MAX_INCREMENT && Unix(t) > s.tally.lastReport
      && s.core.cache.current == map[] && s.core.cache.previous.Keys <= {cookie}
    ensures
      var run := before + [EndBlock(t)];
      IsRun(env, run) && PlainBetween(After(env, run), cookie, live)
  {
    RunExtends(env, before, EndBlock(t));
    ReportsPlain(env, After(env, before), live, t);
  }

  lemma NewSaverIsPlain(env: Env, cookie: U64)
    ensures IsRun(env, []) && PlainBetween(After(env, []), cookie, 0) && After(env, []).tally.lastReport == NEVER
    ensures After(env, []).core.cache == EMPTY_CACHE
  {
  }

  // ---------------------------------------------------------------- a TCPInfo slot that is missing

  /** A connection is seen once with counters, and then with a long table but an empty TCPInfo slot. */
  function MissingSlotRun(first: CachedRecord, second: CachedRecord, t: Time): seq<Action> {
    LastBlock(OneRecord([], first, t), second)
  }

  /**
    One record whose table reaches past the TCPInfo slot while the slot is nil or short takes all bytes of its
    connection out of the totals, which thereby drop below the reported value.
   */
  lemma MissingSlotTripsWorkaround(env: Env, first: CachedRecord, second: CachedRecord, t: Time)
    requires CookieOf(first) == CookieOf(second) && Unix(t) > NEVER
    requires CountersIn(first).Some? && 0 < CountersIn(first).value.sent <= MAX_INCREMENT
    requires HasDiagInfo(second) && CountersIn(second).None?
    ensures
      var run := MissingSlotRun(first, second, t);
      && IsRun(env, run) && RunInOrder(run) && AtReport(After(env, run))
      && Totals(After(env, run)).sent == 0 < After(env, run).tally.reported.sent
  {
    var x, c := GetStats(first).sent, CookieOf(first);
    NewSaverIsPlain(env, c);
    LastBlockShows(env, [], first, x, 0);
    ReportRuns(env, LastBlock([], first), c, x, t);
    LastBlockShows(env, OneRecord([], first, t), second, 0, x);
    BlockInOrder([], first, t);
    BlockInOrder(OneRecord([], first, t), second, t);
  }

  // ---------------------------------------------------------------- a record that is repeated in a block

  function RepeatRun(before: seq<Action>, r: CachedRecord): seq<Action> {
    before + [Receive(r)] + [Receive(r)] + [EndCycle]
  }

  lemma ArrivesTwice(env: Env, before: seq<Action>, r: CachedRecord, x: int)
    requires IsRun(env, before) && PlainBetween(After(env, before), CookieOf(r), 0)
    requires After(env, before).core.cache == EMPTY_CACHE
    requires x == GetStats(r).sent && 2 * x < TWO64
    ensures
      var run := before + [Receive(r)] + [Receive(r)];
      && IsRun(env, run)
      && var s, s' := After(env, before), After(env, run);
      && s'.phase.Receiving? && Plain(s', 2 * x, 0) && s'.tally.lastReport == s.tally.lastReport
      && s'.core.cache.current.Keys == {CookieOf(r)} && s'.core.cache.previous.Keys == {}
  {
    RunExtends(env, before, Receive(r));
    ArrivesPlain(env, After(env, before), r, 0, x, 0);
    var run := before + [Receive(r)];
    RunExtends(env, run, Receive(r));
    ArrivesPlain(env, After(env, run), r, x, 2 * x, 0);
  }

  lemma RepeatDoubles(env: Env, before: seq<Action>, r: CachedRecord, x: int)
    requires IsRun(env, before) && PlainBetween(After(env, before), CookieOf(r), 0)
    requires After(env, before).core.cache == EMPTY_CACHE
    requires x == GetStats(r).sent && 2 * x < TWO64
    ensures
      var run := RepeatRun(before, r);
      && IsRun(env, run)
      && var s, s' := After(env, before), After(env, run);
      && AtReport(s') && Plain(s', 2 * x, 0) && Totals(s').sent == 2 * x && s'.tally.lastReport == s.tally.lastReport
      && s'.core.cache.current == map[] && s'.core.cache.previous.Keys == {CookieOf(r)}
  {
    ArrivesTwice(env, before, r, x);
    var run := before + [Receive(r)] + [Receive(r)];
    assert After(env, run).core.cache.previous == map[];
    RunExtends(env, run, EndCycle);
    EndsPlain(env, After(env, run), 2 * x, 0);
    PlainTotals(After(env, run + [EndCycle]), 2 * x, 0);
  }

  /** A connection whose one record arrives twice in a block is counted twice. */
  lemma RepeatCountsTwice(env: Env, r: CachedRecord)
    requires 2 * GetStats(r).sent < TWO64
    ensures
      var run := RepeatRun([], r);
      IsRun(env, run) && AtReport(After(env, run)) && Totals(After(env, run)).sent == 2 * GetStats(r).sent
  {
    NewSaverIsPlain(env, CookieOf(r));
    RepeatDoubles(env, [], r, GetStats(r).sent);
  }

  /** When it arrives once in the next block, the total is below the value reported for the first. */
  lemma RepeatTripsWorkaround(env: Env, r: CachedRecord, t: Time)
    requires 0 < GetStats(r).sent && 2 * GetStats(r).sent <= MAX_INCREMENT && Unix(t) > NEVER
    ensures
      var run := LastBlock(RepeatRun([], r) + [EndBlock(t)], r);
      && IsRun(env, run) && AtReport(After(env, run))
      && Totals(After(env, run)).sent == GetStats(r).sent
      && After(env, run).tally.reported.sent == 2 * GetStats(r).sent
  {
    var x, c := GetStats(r).sent, CookieOf(r);
    NewSaverIsPlain(env, c);
    RepeatDoubles(env, [], r, x);
    ReportRuns(env, RepeatRun([], r), c, 2 * x, t);
    LastBlockShows(env, RepeatRun([], r) + [EndBlock(t)], r, x, 2 * x);
  }
}
