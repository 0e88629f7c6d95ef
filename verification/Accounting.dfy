/**
  Byte accounting: what the saver adds up, against a reference ledger of all connection sessions.

  A session of a cookie begins with its first record and ends when the cookie expires from the cache.
 */
module Accounting {
  import opened Bytes
  import InetDiag
  import opened Archival
  import opened Cache
  import opened SaverModel
  import opened Sums
  import FlowEvents
  import DeltaLog

  // ---------------------------------------------------------------- the reference ledger

  /**
    What counts as a sight of the byte counters: a table that reaches the TCPInfo slot, which is all that
    HasDiagInfo looks at, or counters that are really there.
   */
  datatype View = ByTable | BySlot

  function Seen(v: View, r: ArchivalRecord): Option<Stats> {
    match v
    case ByTable => if HasDiagInfo(r) then Some(GetStats(r)) else None
    case BySlot => CountersIn(r)
  }

  /** The last counters seen in a session, and whether its newest record shows counters. */
  datatype Session = Session(last: Stats, visible: bool)

  /**
    finished adds up the sessions that have ended. The other sums record how the saver's books can come to differ
    from the sessions' counters: excess adds up the counters of sessions that lost sight of their counters, at the
    moments they regained it; dropped adds up the counters of sessions that lost sight of them by a second record
    in the same cycle; doubled adds up, for the current block, counters that a further record has replaced.
    cycle holds the cookies that have come up in the current block.
   */
  datatype Ledger = Ledger(
    finished: Stats, sessions: map<U64, Session>, excess: Stats, dropped: Stats, doubled: Stats, cycle: set<U64>)

  const NEW_LEDGER := Ledger(NO_BYTES, map[], NO_BYTES, NO_BYTES, NO_BYTES, {})

  function LastOfSession(l: Ledger, cookie: U64): Stats {
    if cookie in l.sessions then l.sessions[cookie].last else NO_BYTES
  }

  /** The counters in the newest record of a cookie. */
  function Showing(l: Ledger, cookie: U64): Stats {
    if cookie in l.sessions && l.sessions[cookie].visible then l.sessions[cookie].last else NO_BYTES
  }

  function ShownBy(v: View, r: ArchivalRecord): Stats {
    match Seen(v, r)
    case None => NO_BYTES
    case Some(x) => x
  }

  /** A session comes back into sight. */
  predicate Regains(v: View, l: Ledger, a: Action) {
    && a.Receive? && InetDiag.Parses(RawOf(a.record)) && Seen(v, a.record).Some?
    && var c := InetDiag.Cookie(RawOf(a.record));
       c in l.sessions && !l.sessions[c].visible
  }

  /** A record of a cookie: the session's new last counters. */
  function BookSession(v: View, l: Ledger, r: ArchivalRecord, c: U64): Ledger {
    match Seen(v, r)
    case None => l.(sessions := l.sessions[c := Session(LastOfSession(l, c), false)])
    case Some(x) => l.(
      sessions := l.sessions[c := Session(x, true)],
      excess := if c in l.sessions && !l.sessions[c].visible then Plus(l.excess, LastOfSession(l, c)) else l.excess)
  }

  /** A record of a cookie that has already come up in the block. */
  function BookRepeat(v: View, l: Ledger, r: ArchivalRecord, c: U64): Ledger {
    if c !in l.cycle then l.(cycle := l.cycle + {c})
    else l.(
      doubled := Plus(l.doubled, Showing(l, c)),
      dropped := if Seen(v, r).None? then Plus(l.dropped, Showing(l, c)) else l.dropped)
  }

  function Book(v: View, l: Ledger, a: Action): Ledger {
    match a
    case Receive(r) =>
      if !InetDiag.Parses(RawOf(r)) then l.(doubled := Plus(l.doubled, ShownBy(v, r)))
      else
        var c := InetDiag.Cookie(RawOf(r));
        BookSession(v, BookRepeat(v, l, r, c), r, c)
    case ExpireOne(c) => l.(finished := Plus(l.finished, LastOfSession(l, c)), sessions := l.sessions - {c})
    case EndBlock(_) => l.(doubled := NO_BYTES, cycle := {})
    case _ => l
  }

  function LedgerOf(v: View, actions: seq<Action>): Ledger {
    if actions == [] then NEW_LEDGER
    else Book(v, LedgerOf(v, actions[..|actions| - 1]), actions[|actions| - 1])
  }

  function Lasts(l: Ledger): map<U64, Stats> {
    map c | c in l.sessions :: l.sessions[c].last
  }

  /** The last counters of all sessions ever seen. */
  ghost function Truth(k: Counter, l: Ledger): int {
    Of(k, l.finished) + Sum(k, Lasts(l))
  }

  /** What the saver's books come to between blocks. */
  ghost function Net(k: Counter, l: Ledger): int {
    Truth(k, l) + Of(k, l.excess) - Of(k, l.dropped)
  }

  /** What the saver's totals come to at the end of a cycle. */
  ghost function Expected(k: Counter, l: Ledger): int {
    Net(k, l) + Of(k, l.doubled)
  }

  // ---------------------------------------------------------------- the saver's own books

  function StatsIn(g: Generation): map<U64, Stats> {
    map c | c in g :: GetStats(g[c])
  }

  ghost function SumOf(k: Counter, g: Generation): int {
    Sum(k, StatsIn(g))
  }

  lemma StatsOfUpdate(g: Generation, c: U64, r: CachedRecord)
    ensures StatsIn(g[c := r]) == StatsIn(g)[c := GetStats(r)]
    ensures StatsIn(g - {c}) == StatsIn(g) - {c}
  {
  }

  lemma SumOfUpdate(k: Counter, g: Generation, c: U64, r: CachedRecord)
    ensures SumOf(k, g[c := r]) == Of(k, GetStats(r)) + SumOf(k, g - {c})
    ensures SumOf(k, g) == (if c in g then Of(k, GetStats(g[c])) else 0) + SumOf(k, g - {c})
  {
    StatsOfUpdate(g, c, r);
    SumApart(k, StatsIn(g), c, GetStats(r));
  }

  /** The saver's closed and ClosingTotals and its live sum, as they would be without wrap-around. */
  datatype Exact = Exact(closed: Stats, totals: Stats, live: Stats)

  const NEW_EXACT := Exact(NO_BYTES, NO_BYTES, NO_BYTES)

  /** What swapAndQueue adds to ClosingTotals. */
  function Carried(g: Generation, r: CachedRecord): Stats {
    var c := CookieOf(r);
    if c in g && !HasDiagInfo(r) && HasDiagInfo(g[c]) then GetStats(g[c]) else NO_BYTES
  }

  /** What the residual loop takes from ClosingTotals. */
  function Released(closing: Closing, cookie: U64, r: CachedRecord): Stats {
    if !HasDiagInfo(r) && cookie in closing.stats then closing.stats[cookie] else NO_BYTES
  }

  function ExactStep(s: State, x: Exact, a: Action): Exact
    requires Enabled(s, a)
  {
    match a
    case Receive(r) =>
      x.(totals := if InetDiag.Parses(RawOf(r)) then Plus(x.totals, Carried(s.core.cache.previous, r)) else x.totals,
         live := Plus(x.live, GetStats(r)))
    case ExpireOne(c) =>
      x.(closed := Plus(x.closed, FinalStats(s.core.closing, c, s.residual[c])),
         totals := Minus(x.totals, Released(s.core.closing, c, s.residual[c])))
    case EndBlock(_) => x.(live := NO_BYTES)
    case _ => x
  }

  function ExactOf(env: Env, actions: seq<Action>): Exact
    requires IsRun(env, actions)
  {
    if actions == [] then NEW_EXACT
    else
      var n := |actions| - 1;
      RunSplits(env, actions);
      ExactStep(After(env, actions[..n]), ExactOf(env, actions[..n]), actions[n])
  }

  /** The saver holds the exact sums modulo 2^64. */
  predicate Tracks(s: State, x: Exact) {
    && s.tally.closed == WrapBoth(x.closed)
    && s.core.closing.totals == WrapBoth(x.totals)
    && s.tally.live == WrapBoth(x.live)
  }

  lemma ReceiveTracks(env: Env, s: State, x: Exact, r: ArchivalRecord)
    requires Enabled(s, Receive(r)) && Tracks(s, x)
    ensures Tracks(Step(env, s, Receive(r)), ExactStep(s, x, Receive(r)))
  {
    WrapFollows(x.live, GetStats(r));
    if InetDiag.Parses(RawOf(r)) {
      WrapFollows(x.totals, Carried(s.core.cache.previous, r));
      assert Plus(x.totals, NO_BYTES) == x.totals;
    }
  }

  lemma ExpireTracks(env: Env, s: State, x: Exact, c: U64)
    requires Enabled(s, ExpireOne(c)) && Tracks(s, x)
    ensures Tracks(Step(env, s, ExpireOne(c)), ExactStep(s, x, ExpireOne(c)))
  {
    WrapFollows(x.closed, FinalStats(s.core.closing, c, s.residual[c]));
    WrapFollows(x.totals, Released(s.core.closing, c, s.residual[c]));
    assert Minus(x.totals, NO_BYTES) == x.totals;
  }

  lemma {:induction false} RunTracks(env: Env, actions: seq<Action>)
    requires IsRun(env, actions)
    ensures Tracks(After(env, actions), ExactOf(env, actions))
  {
    if actions == [] {
    } else {
      var n := |actions| - 1;
      RunSplits(env, actions);
      RunTracks(env, actions[..n]);
      var s, x := After(env, actions[..n]), ExactOf(env, actions[..n]);
      match actions[n]
      case Receive(r) => ReceiveTracks(env, s, x, r);
      case ExpireOne(c) => ExpireTracks(env, s, x, c);
      case _ =>
    }
  }

  // ---------------------------------------------------------------- books against ledger

  /** The generation whose counters are in the live sum, and the one whose counters are not yet anywhere. */
  function CountedIn(s: State): Generation {
    if s.phase.Receiving? then s.core.cache.current else s.core.cache.previous
  }

  function WaitingIn(s: State): Generation {
    if s.phase.Receiving? then s.core.cache.previous else s.residual
  }

  /** What the saver has, or will have, added up by the end of the cycle if nothing more arrives. */
  ghost function Balance(k: Counter, s: State, x: Exact): int {
    Of(k, x.closed) + Of(k, x.totals) + SumOf(k, CountedIn(s)) + SumOf(k, WaitingIn(s))
  }

  function Latest(counted: Generation, waiting: Generation, cookie: U64): CachedRecord
    requires cookie in counted.Keys + waiting.Keys
  {
    if cookie in counted then counted[cookie] else waiting[cookie]
  }

  /** The ledger's session says of the latest record what the saver can see of it. */
  predicate Matches(e: Session, r: CachedRecord) {
    e.visible == HasDiagInfo(r) && (e.visible ==> e.last == GetStats(r))
  }

  predicate SessionsFit(counted: Generation, waiting: Generation, sessions: map<U64, Session>) {
    && sessions.Keys == counted.Keys + waiting.Keys
    && forall c :: c in sessions ==> Matches(sessions[c], Latest(counted, waiting, c))
  }

  predicate SessionsMatch(s: State, l: Ledger) {
    SessionsFit(CountedIn(s), WaitingIn(s), l.sessions)
  }

  ghost predicate BooksAgree(k: Counter, s: State, x: Exact, l: Ledger) {
    && Of(k, x.live) == SumOf(k, CountedIn(s)) + Of(k, l.doubled)
    && Balance(k, s, x) == Net(k, l)
  }

  ghost predicate AccountsInv(k: Counter, s: State, x: Exact, l: Ledger) {
    && (s.phase.Receiving? || s.phase.Expiring? ==> SessionsMatch(s, l) && BooksAgree(k, s, x, l))
    && (s.phase.Receiving? ==> l.cycle == s.core.cache.current.Keys)
  }

  /** The state in which the totals are computed: the residual loop is done. */
  predicate AtReport(s: State) {
    s.phase.Expiring? && s.residual == map[]
  }

  // ---------------------------------------------------------------- one step

  lemma LastsOfUpdate(l: Ledger, c: U64, e: Session)
    ensures Lasts(l.(sessions := l.sessions[c := e])) == Lasts(l)[c := e.last]
    ensures Lasts(l.(sessions := l.sessions - {c})) == Lasts(l) - {c}
  {
  }

  /** How far a record moves the ledger. */
  function Gain(v: View, l: Ledger, r: CachedRecord): Stats {
    var c := CookieOf(r);
    match Seen(v, r)
    case None => if c in l.cycle then Minus(NO_BYTES, Showing(l, c)) else NO_BYTES
    case Some(x) => if Regains(v, l, Receive(r)) then x else Minus(x, LastOfSession(l, c))
  }

  lemma ReceiveMovesLedger(k: Counter, v: View, l: Ledger, r: CachedRecord)
    ensures Net(k, Book(v, l, Receive(r))) == Net(k, l) + Of(k, Gain(v, l, r))
  {
    var c := CookieOf(r);
    var l' := Book(v, l, Receive(r));
    var e := l'.sessions[c];
    LastsOfUpdate(l, c, e);
    SumApart(k, Lasts(l), c, e.last);
    assert Lasts(l') == Lasts(l.(sessions := l.sessions[c := e]));
  }

  /** A record moves the counters in the cache, and what is carried to ClosingTotals, just as far. */
  lemma CacheMoves(k: Counter, current: Generation, previous: Generation, l: Ledger, r: CachedRecord)
    requires current.Keys !! previous.Keys && SessionsFit(current, previous, l.sessions) && l.cycle == current.Keys
    ensures
      Of(k, Carried(previous, r)) + SumOf(k, current[CookieOf(r) := r]) + SumOf(k, previous - {CookieOf(r)}) ==
      SumOf(k, current) + SumOf(k, previous) + Of(k, Gain(ByTable, l, r))
  {
    var c := CookieOf(r);
    SumOfUpdate(k, current, c, r);
    SumOfUpdate(k, previous, c, r);
    assert c in l.sessions <==> c in current || c in previous;
    assert c in l.sessions ==> Matches(l.sessions[c], Latest(current, previous, c));
  }

  /** And so the saver's books. */
  lemma ReceiveMovesBalance(k: Counter, env: Env, s: State, x: Exact, l: Ledger, r: CachedRecord)
    requires Enabled(s, Receive(r)) && FlowEvents.CacheInv(s)
    requires SessionsMatch(s, l) && l.cycle == s.core.cache.current.Keys
    ensures
      Balance(k, Step(env, s, Receive(r)), ExactStep(s, x, Receive(r))) == Balance(k, s, x) + Of(k, Gain(ByTable, l, r))
  {
    ReceiveParts(env, s, r);
    CacheMoves(k, s.core.cache.current, s.core.cache.previous, l, r);
  }

  lemma ReceiveKeepsLive(k: Counter, env: Env, s: State, x: Exact, l: Ledger, r: CachedRecord)
    requires Enabled(s, Receive(r))
    requires SessionsMatch(s, l) && l.cycle == s.core.cache.current.Keys
    requires Of(k, x.live) == SumOf(k, s.core.cache.current) + Of(k, l.doubled)
    ensures Of(k, ExactStep(s, x, Receive(r)).live) ==
      SumOf(k, Step(env, s, Receive(r)).core.cache.current) + Of(k, Book(ByTable, l, Receive(r)).doubled)
  {
    var c := CookieOf(r);
    var current, previous := s.core.cache.current, s.core.cache.previous;
    ReceiveParts(env, s, r);
    SumOfUpdate(k, current, c, r);
    assert c in l.sessions ==> Matches(l.sessions[c], Latest(current, previous, c));
  }

  lemma PutKeepsFit(current: Generation, previous: Generation, sessions: map<U64, Session>, r: CachedRecord, e: Session)
    requires SessionsFit(current, previous, sessions) && Matches(e, r)
    ensures SessionsFit(current[CookieOf(r) := r], previous - {CookieOf(r)}, sessions[CookieOf(r) := e])
  {
    var current', previous', sessions' :=
      current[CookieOf(r) := r], previous - {CookieOf(r)}, sessions[CookieOf(r) := e];
    forall c | c in sessions' ensures Matches(sessions'[c], Latest(current', previous', c)) {
      assert c != CookieOf(r) ==> Matches(sessions[c], Latest(current, previous, c));
    }
  }

  lemma ReceiveKeepsFit(current: Generation, previous: Generation, l: Ledger, r: CachedRecord)
    requires SessionsFit(current, previous, l.sessions)
    ensures SessionsFit(current[CookieOf(r) := r], previous - {CookieOf(r)}, Book(ByTable, l, Receive(r)).sessions)
  {
    var l' := Book(ByTable, l, Receive(r));
    PutKeepsFit(current, previous, l.sessions, r, l'.sessions[CookieOf(r)]);
    assert l'.sessions == l.sessions[CookieOf(r) := l'.sessions[CookieOf(r)]];
  }

  lemma BookCycle(v: View, l: Ledger, r: CachedRecord)
    ensures Book(v, l, Receive(r)).cycle == l.cycle + {CookieOf(r)}
  {
  }

  lemma ReceiveKeepsAccounts(k: Counter, env: Env, s: State, x: Exact, l: Ledger, r: CachedRecord)
    requires Enabled(s, Receive(r))
    requires FlowEvents.CacheInv(s) && AccountsInv(k, s, x, l)
    ensures AccountsInv(k, Step(env, s, Receive(r)), ExactStep(s, x, Receive(r)), Book(ByTable, l, Receive(r)))
  {
    ReceiveParts(env, s, r);
    ReceiveMovesBalance(k, env, s, x, l, r);
    ReceiveMovesLedger(k, ByTable, l, r);
    ReceiveKeepsFit(s.core.cache.current, s.core.cache.previous, l, r);
    ReceiveKeepsLive(k, env, s, x, l, r);
    BookCycle(ByTable, l, r);
  }

  /** A record without a header is counted in the live sum, and nowhere else. */
  lemma HeaderlessKeepsAccounts(k: Counter, env: Env, s: State, x: Exact, l: Ledger, r: ArchivalRecord)
    requires Enabled(s, Receive(r)) && !InetDiag.Parses(RawOf(r))
    requires AccountsInv(k, s, x, l)
    ensures AccountsInv(k, Step(env, s, Receive(r)), ExactStep(s, x, Receive(r)), Book(ByTable, l, Receive(r)))
  {
    var l' := Book(ByTable, l, Receive(r));
    assert Of(k, ShownBy(ByTable, r)) == Of(k, GetStats(r));
    assert Lasts(l') == Lasts(l);
  }

  lemma ExpireKeepsBalance(k: Counter, env: Env, s: State, x: Exact, cookie: U64)
    requires Enabled(s, ExpireOne(cookie))
    ensures Balance(k, Expire(env, s, cookie), ExactStep(s, x, ExpireOne(cookie))) == Balance(k, s, x)
  {
    SumOfUpdate(k, s.residual, cookie, s.residual[cookie]);
  }

  lemma ExpireKeepsLedger(k: Counter, v: View, l: Ledger, cookie: U64)
    ensures
      var l' := Book(v, l, ExpireOne(cookie));
      Truth(k, l') == Truth(k, l) && l'.excess == l.excess && l'.dropped == l.dropped && l'.doubled == l.doubled
  {
    var l' := Book(v, l, ExpireOne(cookie));
    LastsOfUpdate(l, cookie, Session(NO_BYTES, false));
    assert Lasts(l') == Lasts(l.(sessions := l.sessions - {cookie}));
    SumApart(k, Lasts(l), cookie, NO_BYTES);
  }

  lemma ExpireKeepsFit(previous: Generation, residual: Generation, sessions: map<U64, Session>, cookie: U64)
    requires SessionsFit(previous, residual, sessions) && cookie !in previous
    ensures SessionsFit(previous, residual - {cookie}, sessions - {cookie})
  {
    forall c | c in sessions - {cookie}
      ensures Matches((sessions - {cookie})[c], Latest(previous, residual - {cookie}, c)) {
      assert Matches(sessions[c], Latest(previous, residual, c));
    }
  }

  lemma ExpireKeepsAccounts(k: Counter, env: Env, s: State, x: Exact, l: Ledger, cookie: U64)
    requires Enabled(s, ExpireOne(cookie)) && FlowEvents.CacheInv(s) && AccountsInv(k, s, x, l)
    ensures AccountsInv(k, Expire(env, s, cookie),
      ExactStep(s, x, ExpireOne(cookie)), Book(ByTable, l, ExpireOne(cookie)))
  {
    ExpireKeepsBalance(k, env, s, x, cookie);
    ExpireKeepsLedger(k, ByTable, l, cookie);
    ExpireKeepsFit(s.core.cache.previous, s.residual, l.sessions, cookie);
  }

  lemma SumOfNothing(k: Counter)
    ensures SumOf(k, map[]) == 0
  {
    assert StatsIn(map[]) == map[];
  }

  lemma TurnKeepsFit(counted: Generation, sessions: map<U64, Session>)
    requires SessionsFit(counted, map[], sessions)
    ensures SessionsFit(map[], counted, sessions)
  {
    forall c | c in sessions ensures Matches(sessions[c], Latest(map[], counted, c)) {
      assert Matches(sessions[c], Latest(counted, map[], c));
    }
  }

  /** The turn of a cycle, and of a block, only renames the generations. */
  lemma CycleKeepsAccounts(k: Counter, env: Env, s: State, x: Exact, l: Ledger)
    requires Enabled(s, EndCycle) && AccountsInv(k, s, x, l)
    ensures AccountsInv(k, Step(env, s, EndCycle), x, l)
  {
  }

  lemma BlockKeepsNet(k: Counter, v: View, l: Ledger, t: Time)
    ensures Net(k, Book(v, l, EndBlock(t))) == Net(k, l)
  {
    assert Lasts(Book(v, l, EndBlock(t))) == Lasts(l);
  }

  lemma BlockKeepsBooks(k: Counter, s: State, s': State, x: Exact, l: Ledger, t: Time)
    requires AtReport(s) && s'.phase.Receiving? && s'.core == s.core && s.core.cache.current == map[]
    requires BooksAgree(k, s, x, l)
    ensures BooksAgree(k, s', x.(live := NO_BYTES), Book(ByTable, l, EndBlock(t)))
  {
    SumOfNothing(k);
    BlockKeepsNet(k, ByTable, l, t);
  }

  lemma BlockKeepsAccounts(k: Counter, env: Env, s: State, x: Exact, l: Ledger, t: Time)
    requires Enabled(s, EndBlock(t)) && FlowEvents.CacheInv(s) && AccountsInv(k, s, x, l)
    ensures AccountsInv(k, Step(env, s, EndBlock(t)), ExactStep(s, x, EndBlock(t)), Book(ByTable, l, EndBlock(t)))
  {
    TurnKeepsFit(s.core.cache.previous, l.sessions);
    BlockKeepsBooks(k, s, Step(env, s, EndBlock(t)), x, l, t);
  }

  lemma ScrubKeepsStats(g: Generation, c: U64, r: CachedRecord)
    requires c in g && SameButAddresses(g[c], r)
    ensures StatsIn(g[c := r]) == StatsIn(g)
    ensures forall d :: d in g ==>
      HasDiagInfo(g[c := r][d]) == HasDiagInfo(g[d]) && GetStats(g[c := r][d]) == GetStats(g[d])
  {
    AddressesDoNotMatter(g[c], r, g[c], r);
  }

  lemma ScrubCountedFits(counted: Generation, waiting: Generation, sessions: map<U64, Session>, c: U64, r: CachedRecord)
    requires SessionsFit(counted, waiting, sessions) && c in counted && SameButAddresses(counted[c], r)
    ensures SessionsFit(counted[c := r], waiting, sessions)
  {
    ScrubKeepsStats(counted, c, r);
    forall d | d in sessions ensures Matches(sessions[d], Latest(counted[c := r], waiting, d)) {
      assert Matches(sessions[d], Latest(counted, waiting, d));
    }
  }

  lemma ScrubWaitingFits(counted: Generation, waiting: Generation, sessions: map<U64, Session>, c: U64, r: CachedRecord)
    requires SessionsFit(counted, waiting, sessions) && c in waiting && SameButAddresses(waiting[c], r)
    ensures SessionsFit(counted, waiting[c := r], sessions)
  {
    ScrubKeepsStats(waiting, c, r);
    forall d | d in sessions ensures Matches(sessions[d], Latest(counted, waiting[c := r], d)) {
      assert Matches(sessions[d], Latest(counted, waiting, d));
    }
  }

  /** Where a scrubbed record is: in the counted generation, in the waiting one, or in neither. */
  predicate IsCounted(s: State, place: Place) {
    place == if s.phase.Receiving? then InCurrent else InPrevious
  }

  predicate IsWaiting(s: State, place: Place) {
    place == if s.phase.Receiving? then InPrevious else InResidual
  }

  lemma ScrubbedGenerations(s: State, place: Place, c: U64, r: CachedRecord)
    ensures
      var s' := Scrubbed(s, place, c, r);
      && s'.phase == s.phase
      && CountedIn(s') == (if IsCounted(s, place) then CountedIn(s)[c := r] else CountedIn(s))
      && WaitingIn(s') == (if IsWaiting(s, place) then WaitingIn(s)[c := r] else WaitingIn(s))
      && (IsCounted(s, place) ==> CountedIn(s) == GenerationAt(s, place))
      && (IsWaiting(s, place) ==> WaitingIn(s) == GenerationAt(s, place))
  {
  }

  lemma ScrubKeepsSums(s: State, place: Place, c: U64, r: CachedRecord)
    requires Enabled(s, Scrub(place, c, r))
    ensures
      var s' := Scrubbed(s, place, c, r);
      StatsIn(CountedIn(s')) == StatsIn(CountedIn(s)) && StatsIn(WaitingIn(s')) == StatsIn(WaitingIn(s))
  {
    ScrubbedGenerations(s, place, c, r);
    ScrubKeepsStats(GenerationAt(s, place), c, r);
  }

  lemma ScrubKeepsFit(s: State, l: Ledger, place: Place, c: U64, r: CachedRecord)
    requires Enabled(s, Scrub(place, c, r)) && SessionsMatch(s, l)
    ensures SessionsMatch(Scrubbed(s, place, c, r), l)
  {
    ScrubbedGenerations(s, place, c, r);
    if IsCounted(s, place) {
      ScrubCountedFits(CountedIn(s), WaitingIn(s), l.sessions, c, r);
    } else if IsWaiting(s, place) {
      ScrubWaitingFits(CountedIn(s), WaitingIn(s), l.sessions, c, r);
    }
  }

  lemma SameSumsKeepAccounts(k: Counter, s: State, s': State, x: Exact, l: Ledger)
    requires AccountsInv(k, s, x, l) && s'.phase == s.phase
    requires StatsIn(CountedIn(s')) == StatsIn(CountedIn(s)) && StatsIn(WaitingIn(s')) == StatsIn(WaitingIn(s))
    requires s.phase.Receiving? || s.phase.Expiring? ==> SessionsMatch(s', l)
    requires s'.core.cache.current.Keys == s.core.cache.current.Keys
    ensures AccountsInv(k, s', x, l)
  {
  }

  lemma ScrubKeepsAccounts(k: Counter, s: State, x: Exact, l: Ledger, place: Place, c: U64, r: CachedRecord)
    requires Enabled(s, Scrub(place, c, r)) && AccountsInv(k, s, x, l)
    ensures AccountsInv(k, Scrubbed(s, place, c, r), x, l)
  {
    FlowEvents.ScrubKeepsKeys(s, place, c, r);
    ScrubKeepsSums(s, place, c, r);
    if s.phase.Receiving? || s.phase.Expiring? {
      ScrubKeepsFit(s, l, place, c, r);
    }
    SameSumsKeepAccounts(k, s, Scrubbed(s, place, c, r), x, l);
  }

  lemma StepKeepsAccounts(k: Counter, env: Env, s: State, x: Exact, l: Ledger, a: Action)
    requires Enabled(s, a)
    requires FlowEvents.CacheInv(s) && AccountsInv(k, s, x, l)
    ensures AccountsInv(k, Step(env, s, a), ExactStep(s, x, a), Book(ByTable, l, a))
  {
    match a
    case Receive(r) =>
      if InetDiag.Parses(RawOf(r)) {
        ReceiveKeepsAccounts(k, env, s, x, l, r);
      } else {
        HeaderlessKeepsAccounts(k, env, s, x, l, r);
      }
    case ExpireOne(c) => ExpireKeepsAccounts(k, env, s, x, l, c);
    case EndCycle => CycleKeepsAccounts(k, env, s, x, l);
    case EndBlock(t) => BlockKeepsAccounts(k, env, s, x, l, t);
    case Scrub(place, c, r) => ScrubKeepsAccounts(k, s, x, l, place, c, r);
    case Close =>
    case CloseOne(_) =>
    case Stop =>
  }

  lemma NewBooksAgree(k: Counter)
    ensures AccountsInv(k, INITIAL_STATE, NEW_EXACT, NEW_LEDGER)
  {
    SumOfNothing(k);
    assert Lasts(NEW_LEDGER) == map[];
  }

  lemma {:induction false} RunKeepsAccounts(k: Counter, env: Env, actions: seq<Action>)
    requires IsRun(env, actions)
    ensures AccountsInv(k, After(env, actions), ExactOf(env, actions), LedgerOf(ByTable, actions))
  {
    if actions == [] {
      NewBooksAgree(k);
    } else {
      var n := |actions| - 1;
      RunSplits(env, actions);
      RunKeepsAccounts(k, env, actions[..n]);
      DeltaLog.RunKeepsLog(env, actions[..n]);
      StepKeepsAccounts(k, env,
        After(env, actions[..n]), ExactOf(env, actions[..n]), LedgerOf(ByTable, actions[..n]), actions[n]);
    }
  }

  // ---------------------------------------------------------------- conservation

  lemma TotalsAreExactSums(k: Counter, s: State, x: Exact)
    requires Tracks(s, x)
    ensures Of(k, Totals(s)) == Wrap(Of(k, x.closed) + Of(k, x.totals) + Of(k, x.live))
  {
    WrapThree(Of(k, x.closed), Of(k, x.totals), Of(k, x.live));
  }

  lemma BooksClose(k: Counter, s: State, x: Exact, l: Ledger)
    requires Tracks(s, x) && AtReport(s) && AccountsInv(k, s, x, l)
    ensures Of(k, Totals(s)) == Wrap(Expected(k, l))
  {
    TotalsAreExactSums(k, s, x);
    SumOfNothing(k);
    assert Of(k, x.closed) + Of(k, x.totals) + Of(k, x.live) == Expected(k, l);
  }

  /**
    At the end of every cycle of every run, whatever the records are, the saver's totals are, as uint64, the last
    counters of all sessions ever seen, plus the excess, less what was dropped, plus what was doubled.
   */
  lemma BytesAreConserved(k: Counter, env: Env, actions: seq<Action>)
    requires IsRun(env, actions)
    requires AtReport(After(env, actions))
    ensures Of(k, Totals(After(env, actions))) == Wrap(Expected(k, LedgerOf(ByTable, actions)))
  {
    RunTracks(env, actions);
    RunKeepsAccounts(k, env, actions);
    BooksClose(k, After(env, actions), ExactOf(env, actions), LedgerOf(ByTable, actions));
  }
}
