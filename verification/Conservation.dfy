/** When the byte accounting is right, how it goes wrong, and why the totals do not decrease. */
module Conservation {
  import opened Bytes
  import InetDiag
  import opened Archival
  import opened Cache
  import opened SaverModel
  import opened Sums
  import opened Accounting

  // ---------------------------------------------------------------- nothing is negative

  predicate LedgerNonnegative(l: Ledger) {
    && Nonnegative(Lasts(l))
    && l.finished.sent >= 0 && l.finished.received >= 0
    && l.excess.sent >= 0 && l.excess.received >= 0
    && l.doubled.sent >= 0 && l.doubled.received >= 0
  }

  lemma ShowingNonnegative(l: Ledger, c: U64)
    requires LedgerNonnegative(l)
    ensures Showing(l, c).sent >= 0 && Showing(l, c).received >= 0
  {
    if c in l.sessions {
      assert Lasts(l)[c] == l.sessions[c].last;
    }
  }

  lemma LastNonnegative(l: Ledger, c: U64)
    requires LedgerNonnegative(l)
    ensures LastOfSession(l, c).sent >= 0 && LastOfSession(l, c).received >= 0
  {
    if c in l.sessions {
      assert Lasts(l)[c] == l.sessions[c].last;
    }
  }

  lemma SessionsNonnegative(v: View, l: Ledger, a: Action)
    requires LedgerNonnegative(l)
    ensures Nonnegative(Lasts(Book(v, l, a)))
  {
    var l' := Book(v, l, a);
    forall c | c in Lasts(l') ensures Lasts(l')[c].sent >= 0 && Lasts(l')[c].received >= 0 {
      LastNonnegative(l, c);
      assert Lasts(l')[c] == l'.sessions[c].last;
    }
  }

  lemma SumsNonnegative(v: View, l: Ledger, a: Action)
    requires LedgerNonnegative(l)
    ensures
      var l' := Book(v, l, a);
      && l'.finished.sent >= 0 && l'.finished.received >= 0
      && l'.excess.sent >= 0 && l'.excess.received >= 0
      && l'.doubled.sent >= 0 && l'.doubled.received >= 0
  {
    match a
    case Receive(r) =>
      if InetDiag.Parses(RawOf(r)) {
        LastNonnegative(l, InetDiag.Cookie(RawOf(r)));
      }
    case ExpireOne(c) => LastNonnegative(l, c);
    case _ =>
  }

  lemma BookNonnegative(v: View, l: Ledger, a: Action)
    requires LedgerNonnegative(l)
    ensures LedgerNonnegative(Book(v, l, a))
  {
    SessionsNonnegative(v, l, a);
    SumsNonnegative(v, l, a);
  }

  lemma {:induction false} RunNonnegative(v: View, actions: seq<Action>)
    ensures LedgerNonnegative(LedgerOf(v, actions))
  {
    if actions == [] {
    } else {
      RunNonnegative(v, actions[..|actions| - 1]);
      BookNonnegative(v, LedgerOf(v, actions[..|actions| - 1]), actions[|actions| - 1]);
    }
  }

  // ---------------------------------------------------------------- when nothing is dropped or doubled

  /** Records have a header, and cookies do not repeat within a cycle. */
  predicate InOrder(l: Ledger, a: Action) {
    a.Receive? ==> InetDiag.Parses(RawOf(a.record)) && InetDiag.Cookie(RawOf(a.record)) !in l.cycle
  }

  predicate RunInOrder(actions: seq<Action>) {
    actions == [] ||
    (var init := actions[..|actions| - 1];
     RunInOrder(init) && InOrder(LedgerOf(ByTable, init), actions[|actions| - 1]))
  }

  lemma {:induction false} InOrderIsClean(k: Counter, actions: seq<Action>)
    requires RunInOrder(actions)
    ensures Of(k, LedgerOf(ByTable, actions).dropped) == 0 && Of(k, LedgerOf(ByTable, actions).doubled) == 0
  {
    if actions == [] {
    } else {
      InOrderIsClean(k, actions[..|actions| - 1]);
    }
  }

  // ---------------------------------------------------------------- when there is no excess

  /** No session that had counted bytes ever comes back into sight after it was lost from sight. */
  predicate NoReturns(k: Counter, v: View, actions: seq<Action>) {
    actions == [] ||
    (var init, last := actions[..|actions| - 1], actions[|actions| - 1];
     && NoReturns(k, v, init)
     && (Regains(v, LedgerOf(v, init), last) ==>
           Of(k, LastOfSession(LedgerOf(v, init), InetDiag.Cookie(RawOf(last.record)))) == 0))
  }

  lemma {:induction false} ExcessExact(k: Counter, v: View, actions: seq<Action>)
    ensures Of(k, LedgerOf(v, actions).excess) == 0 <==> NoReturns(k, v, actions)
  {
    if actions == [] {
    } else {
      var init, last := actions[..|actions| - 1], actions[|actions| - 1];
      ExcessExact(k, v, init);
      RunNonnegative(v, init);
      var l := LedgerOf(v, init);
      if Regains(v, l, last) {
        var c := InetDiag.Cookie(RawOf(last.record));
        assert Lasts(l)[c] == l.sessions[c].last;
      }
    }
  }

  /** A table that reaches the TCPInfo slot has counters there. */
  predicate CountersPresent(a: Action) {
    a.Receive? && HasDiagInfo(a.record) ==> CountersIn(a.record).Some?
  }

  predicate AllCountersPresent(actions: seq<Action>) {
    forall i :: 0 <= i < |actions| ==> CountersPresent(actions[i])
  }

  lemma {:induction false} ViewsAgree(actions: seq<Action>)
    requires AllCountersPresent(actions)
    ensures LedgerOf(ByTable, actions) == LedgerOf(BySlot, actions)
  {
    if actions == [] {
    } else {
      ViewsAgree(actions[..|actions| - 1]);
      assert CountersPresent(actions[|actions| - 1]);
    }
  }

  /**
    With distinct cookies per cycle, counters wherever HasDiagInfo says so, and no 64 bit overflow: the totals at
    the end of a cycle are the last counters really observed in all sessions ever seen, if and only if no
    session that had counted bytes has lost its counters and regained them.
   */
  lemma ConservationExact(k: Counter, env: Env, actions: seq<Action>)
    requires IsRun(env, actions) && RunInOrder(actions)
    requires AllCountersPresent(actions)
    requires AtReport(After(env, actions))
    requires Truth(k, LedgerOf(BySlot, actions)) + Of(k, LedgerOf(BySlot, actions).excess) < TWO64
    ensures Of(k, Totals(After(env, actions))) == Truth(k, LedgerOf(BySlot, actions)) <==> NoReturns(k, BySlot, actions)
  {
    ViewsAgree(actions);
    BytesAreConserved(k, env, actions);
    InOrderIsClean(k, actions);
    TruthNonnegative(k, BySlot, actions);
    ExcessExact(k, BySlot, actions);
  }

  /** For any records, the totals are the last counters of all sessions exactly when the deviations cancel out. */
  lemma DeviationsExact(k: Counter, env: Env, actions: seq<Action>)
    requires IsRun(env, actions) && AtReport(After(env, actions))
    requires 0 <= Expected(k, LedgerOf(ByTable, actions)) < TWO64
    ensures
      var l := LedgerOf(ByTable, actions);
      Of(k, Totals(After(env, actions))) == Truth(k, l) <==> Of(k, l.excess) + Of(k, l.doubled) == Of(k, l.dropped)
  {
    BytesAreConserved(k, env, actions);
  }

  lemma TruthNonnegative(k: Counter, v: View, actions: seq<Action>)
    ensures Truth(k, LedgerOf(v, actions)) >= 0 && Of(k, LedgerOf(v, actions).excess) >= 0
  {
    RunNonnegative(v, actions);
    SumNonnegative(k, Lasts(LedgerOf(v, actions)));
  }

  // ---------------------------------------------------------------- when the totals decrease

  /** A session in sight shows less than it did in its record before. */
  predicate Falls(k: Counter, v: View, l: Ledger, a: Action) {
    && a.Receive? && InetDiag.Parses(RawOf(a.record)) && Seen(v, a.record).Some?
    && var c := InetDiag.Cookie(RawOf(a.record));
       && c in l.sessions && l.sessions[c].visible
       && Of(k, Seen(v, a.record).value) < Of(k, l.sessions[c].last)
  }

  /** What the books come to falls exactly when the counter of a session in sight does. */
  lemma NetFallsExactly(k: Counter, v: View, l: Ledger, a: Action)
    requires InOrder(l, a)
    requires a.Receive? ==> InfoLongEnough(a.record)
    ensures Net(k, Book(v, l, a)) < Net(k, l) <==> Falls(k, v, l, a)
  {
    match a
    case Receive(r) => ReceiveMovesLedger(k, v, l, r);
    case ExpireOne(c) => ExpireKeepsLedger(k, v, l, c);
    case EndBlock(t) => BlockKeepsNet(k, v, l, t);
    case _ =>
  }

  /**
    For any records: what the totals come to falls exactly when the counter of a session in sight does, by the first
    record of its cookie in the block, or when a block ends in which counters were doubled.
   */
  lemma ExpectedFallsExactly(k: Counter, v: View, l: Ledger, a: Action)
    requires LedgerNonnegative(l)
    requires a.Receive? ==> InfoLongEnough(a.record)
    ensures Expected(k, Book(v, l, a)) < Expected(k, l) <==>
      || (Falls(k, v, l, a) && InetDiag.Cookie(RawOf(a.record)) !in l.cycle)
      || (a.EndBlock? && Of(k, l.doubled) > 0)
  {
    match a
    case Receive(r) =>
      if InetDiag.Parses(RawOf(r)) {
        ReceiveMovesLedger(k, v, l, r);
        ShowingNonnegative(l, CookieOf(r));
      } else {
        assert Lasts(Book(v, l, a)) == Lasts(l);
      }
    case ExpireOne(c) => ExpireKeepsLedger(k, v, l, c);
    case EndBlock(t) => BlockKeepsNet(k, v, l, t);
    case _ =>
  }

  predicate NeverFalls(k: Counter, v: View, actions: seq<Action>) {
    actions == [] ||
    (var init := actions[..|actions| - 1];
     NeverFalls(k, v, init) && !Falls(k, v, LedgerOf(v, init), actions[|actions| - 1]))
  }

  /** The action is a report, and the total of this counter is accepted. */
  predicate Accepts(k: Counter, s: State, a: Action) {
    && a.EndBlock? && Unix(a.v4Time) > s.tally.lastReport
    && Observation(Of(k, Totals(s)), Of(k, s.tally.reported)).Some?
  }

  /** What the totals came to at the last report that was accepted. */
  ghost function ExpectedAtReport(k: Counter, env: Env, actions: seq<Action>): int
    requires IsRun(env, actions)
  {
    if actions == [] then 0
    else
      var n := |actions| - 1;
      RunSplits(env, actions);
      if Accepts(k, After(env, actions[..n]), actions[n]) then Expected(k, LedgerOf(ByTable, actions[..n]))
      else ExpectedAtReport(k, env, actions[..n])
  }

  lemma StepReports(k: Counter, env: Env, s: State, a: Action)
    requires Enabled(s, a)
    ensures Of(k, Step(env, s, a).tally.reported) ==
      if Accepts(k, s, a) then Of(k, Totals(s)) else Of(k, s.tally.reported)
  {
  }

  /** In every run the reported value is, as uint64, what the totals came to at the last report that was accepted. */
  lemma {:induction false} ReportedIsExpected(k: Counter, env: Env, actions: seq<Action>)
    requires IsRun(env, actions)
    ensures Of(k, After(env, actions).tally.reported) == Wrap(ExpectedAtReport(k, env, actions))
  {
    if actions == [] {
    } else {
      var n := |actions| - 1;
      RunSplits(env, actions);
      ReportedIsExpected(k, env, actions[..n]);
      var s := After(env, actions[..n]);
      StepReports(k, env, s, actions[n]);
      if Accepts(k, s, actions[n]) {
        BytesAreConserved(k, env, actions[..n]);
      }
    }
  }

  /**
    In every run, for any records, the total is below the reported value if and only if what the totals come to
    now is, as uint64, below what they came to at the last report that was accepted.
   */
  lemma WorkaroundExact(k: Counter, env: Env, actions: seq<Action>)
    requires IsRun(env, actions) && AtReport(After(env, actions))
    ensures
      var s := After(env, actions);
      Of(k, Totals(s)) < Of(k, s.tally.reported) <==>
        Wrap(Expected(k, LedgerOf(ByTable, actions))) < Wrap(ExpectedAtReport(k, env, actions))
  {
    BytesAreConserved(k, env, actions);
    ReportedIsExpected(k, env, actions);
  }

  lemma {:induction false} InOrderReportNonnegative(k: Counter, env: Env, actions: seq<Action>)
    requires IsRun(env, actions) && RunInOrder(actions)
    ensures ExpectedAtReport(k, env, actions) >= 0
  {
    if actions == [] {
    } else {
      var n := |actions| - 1;
      RunSplits(env, actions);
      InOrderReportNonnegative(k, env, actions[..n]);
      InOrderIsClean(k, actions[..n]);
      TruthNonnegative(k, ByTable, actions[..n]);
    }
  }

  /**
    With distinct cookies per cycle and sums that fit 64 bits, the branch for a total below the reported value is
    taken if and only if the exact sum of all sessions is below what it was at the last report that was accepted.
   */
  lemma DecreaseExact(k: Counter, env: Env, actions: seq<Action>)
    requires IsRun(env, actions) && RunInOrder(actions) && AtReport(After(env, actions))
    requires Net(k, LedgerOf(ByTable, actions)) < TWO64 && ExpectedAtReport(k, env, actions) < TWO64
    ensures
      var s := After(env, actions);
      Of(k, Totals(s)) < Of(k, s.tally.reported) <==>
        Net(k, LedgerOf(ByTable, actions)) < ExpectedAtReport(k, env, actions)
  {
    WorkaroundExact(k, env, actions);
    InOrderIsClean(k, actions);
    TruthNonnegative(k, ByTable, actions);
    InOrderReportNonnegative(k, env, actions);
  }

  /** As long as no session in sight falls, the exact sum is never below that of an earlier report. */
  lemma {:induction false} ReportWithinNet(k: Counter, env: Env, actions: seq<Action>)
    requires IsRun(env, actions) && RunInOrder(actions) && NeverFalls(k, ByTable, actions)
    ensures ExpectedAtReport(k, env, actions) <= Net(k, LedgerOf(ByTable, actions))
  {
    if actions == [] {
      TruthNonnegative(k, ByTable, actions);
    } else {
      var n := |actions| - 1;
      RunSplits(env, actions);
      ReportWithinNet(k, env, actions[..n]);
      NetFallsExactly(k, ByTable, LedgerOf(ByTable, actions[..n]), actions[n]);
      InOrderIsClean(k, actions[..n]);
    }
  }

  /**
    With distinct cookies per cycle, no session in sight whose counter falls, and no 64 bit overflow, the branch for
    a total below the reported value is unreachable. A session that regains its counters may show any value.
   */
  lemma TotalsDoNotDecrease(k: Counter, env: Env, actions: seq<Action>)
    requires IsRun(env, actions) && RunInOrder(actions) && NeverFalls(k, ByTable, actions)
    requires AtReport(After(env, actions))
    requires Net(k, LedgerOf(ByTable, actions)) < TWO64
    ensures Of(k, Totals(After(env, actions))) >= Of(k, After(env, actions).tally.reported)
  {
    ReportWithinNet(k, env, actions);
    DecreaseExact(k, env, actions);
  }
}
