/**
  Records whose table reaches the TCPInfo slot without counters in it: what they hide of the counters really observed,
  and so the exact condition for right totals with no assumption on the records.
 */
module Masking {
  import opened Bytes
  import InetDiag
  import opened Archival
  import opened Cache
  import opened SaverModel
  import opened Sums
  import opened Accounting
  import Conservation

  /** The counters hidden in sessions that have ended, and in each session that has not. */
  datatype Masks = Masks(finished: Stats, live: map<U64, Stats>)

  function MaskOf(m: Masks, c: U64): Stats {
    if c in m.live then m.live[c] else NO_BYTES
  }

  /**
    A record with counters ends the hiding of its session. One with a long table and no counters hides all that the
    session has shown. Any other leaves things as they are.
   */
  function MaskBy(m: Masks, l: Ledger, r: ArchivalRecord, c: U64): Stats {
    if CountersIn(r).Some? then NO_BYTES
    else if HasDiagInfo(r) then Plus(LastOfSession(l, c), MaskOf(m, c))
    else MaskOf(m, c)
  }

  function MaskStep(m: Masks, l: Ledger, a: Action): Masks {
    match a
    case Receive(r) =>
      if !InetDiag.Parses(RawOf(r)) then m
      else
        var c := InetDiag.Cookie(RawOf(r));
        m.(live := m.live[c := MaskBy(m, l, r, c)])
    case ExpireOne(c) => Masks(Plus(m.finished, MaskOf(m, c)), m.live - {c})
    case _ => m
  }

  function MasksOf(actions: seq<Action>): Masks {
    if actions == [] then Masks(NO_BYTES, map[])
    else
      var init := actions[..|actions| - 1];
      MaskStep(MasksOf(init), LedgerOf(ByTable, init), actions[|actions| - 1])
  }

  /** The counters that the records of a run hide. */
  ghost function Masked(k: Counter, m: Masks): int {
    Of(k, m.finished) + Sum(k, m.live)
  }

  // ---------------------------------------------------------------- the two ledgers

  /** In every session, the counters really observed are those the table shows and those it hides. */
  predicate Explains(k: Counter, m: Masks, table: Ledger, slot: Ledger) {
    && slot.sessions.Keys == table.sessions.Keys == m.live.Keys
    && Of(k, slot.finished) == Of(k, table.finished) + Of(k, m.finished)
    && forall c :: c in m.live ==> Of(k, slot.sessions[c].last) == Of(k, table.sessions[c].last) + Of(k, m.live[c])
  }

  lemma SessionExplained(k: Counter, m: Masks, table: Ledger, slot: Ledger, c: U64)
    requires Explains(k, m, table, slot)
    ensures Of(k, LastOfSession(slot, c)) == Of(k, LastOfSession(table, c)) + Of(k, MaskOf(m, c))
  {
    if c in m.live {
      assert Of(k, slot.sessions[c].last) == Of(k, table.sessions[c].last) + Of(k, m.live[c]);
    }
  }

  /** What a record makes of the last counters of its session. */
  function LastAfter(v: View, l: Ledger, r: CachedRecord): Stats {
    match Seen(v, r)
    case None => LastOfSession(l, CookieOf(r))
    case Some(x) => x
  }

  lemma BookedSession(v: View, l: Ledger, r: CachedRecord)
    ensures
      var c, l' := CookieOf(r), Book(v, l, Receive(r));
      && l'.finished == l.finished && c in l'.sessions && l'.sessions[c].last == LastAfter(v, l, r)
      && l'.sessions == l.sessions[c := l'.sessions[c]]
  {
  }

  lemma RecordExplained(k: Counter, m: Masks, table: Ledger, slot: Ledger, r: CachedRecord)
    requires Explains(k, m, table, slot)
    ensures Of(k, LastAfter(BySlot, slot, r)) ==
      Of(k, LastAfter(ByTable, table, r)) + Of(k, MaskBy(m, table, r, CookieOf(r)))
  {
    SessionExplained(k, m, table, slot, CookieOf(r));
  }

  lemma PutExplained(
    k: Counter, m: Masks, table: Ledger, slot: Ledger, c: U64, mask: Stats, inTable: Session, inSlot: Session)
    requires Explains(k, m, table, slot)
    requires Of(k, inSlot.last) == Of(k, inTable.last) + Of(k, mask)
    ensures Explains(k, m.(live := m.live[c := mask]), table.(sessions := table.sessions[c := inTable]),
      slot.(sessions := slot.sessions[c := inSlot]))
  {
  }

  lemma ReceiveExplained(k: Counter, m: Masks, table: Ledger, slot: Ledger, r: CachedRecord)
    requires Explains(k, m, table, slot)
    ensures
      Explains(k, MaskStep(m, table, Receive(r)), Book(ByTable, table, Receive(r)), Book(BySlot, slot, Receive(r)))
  {
    var c := CookieOf(r);
    BookedSession(ByTable, table, r);
    BookedSession(BySlot, slot, r);
    RecordExplained(k, m, table, slot, r);
    PutExplained(k, m, table, slot, c, MaskBy(m, table, r, c),
      Book(ByTable, table, Receive(r)).sessions[c], Book(BySlot, slot, Receive(r)).sessions[c]);
  }

  lemma ExpireExplained(k: Counter, m: Masks, table: Ledger, slot: Ledger, c: U64)
    requires Explains(k, m, table, slot)
    ensures
      Explains(k, MaskStep(m, table, ExpireOne(c)),
        Book(ByTable, table, ExpireOne(c)), Book(BySlot, slot, ExpireOne(c)))
  {
    SessionExplained(k, m, table, slot, c);
  }

  lemma StepExplained(k: Counter, m: Masks, table: Ledger, slot: Ledger, a: Action)
    requires Explains(k, m, table, slot)
    requires a.Receive? ==> InfoLongEnough(a.record)
    ensures Explains(k, MaskStep(m, table, a), Book(ByTable, table, a), Book(BySlot, slot, a))
  {
    match a
    case Receive(r) =>
      if InetDiag.Parses(RawOf(r)) {
        ReceiveExplained(k, m, table, slot, r);
      }
    case ExpireOne(c) => ExpireExplained(k, m, table, slot, c);
    case _ =>
  }

  lemma {:induction false} RunExplained(k: Counter, env: Env, actions: seq<Action>)
    requires IsRun(env, actions)
    ensures Explains(k, MasksOf(actions), LedgerOf(ByTable, actions), LedgerOf(BySlot, actions))
  {
    if actions == [] {
    } else {
      var n := |actions| - 1;
      var init := actions[..n];
      RunSplits(env, actions);
      RunExplained(k, env, init);
      StepExplained(k, MasksOf(init), LedgerOf(ByTable, init), LedgerOf(BySlot, init), actions[n]);
    }
  }

  lemma {:induction false} SumOfSums(k: Counter, a: map<U64, Stats>, b: map<U64, Stats>, both: map<U64, Stats>)
    requires a.Keys == b.Keys == both.Keys && forall c :: c in both ==> Of(k, both[c]) == Of(k, a[c]) + Of(k, b[c])
    ensures Sum(k, both) == Sum(k, a) + Sum(k, b)
    decreases |both|
  {
    if both == map[] {
      assert a == map[] && b == map[];
    } else {
      var c: U64 :| c in both;
      SumRemove(k, a, c);
      SumRemove(k, b, c);
      SumRemove(k, both, c);
      SumOfSums(k, a - {c}, b - {c}, both - {c});
    }
  }

  /** The counters really observed are those that HasDiagInfo and GetStats show, and those they hide. */
  lemma TruthIsShownAndMasked(k: Counter, env: Env, actions: seq<Action>)
    requires IsRun(env, actions)
    ensures Truth(k, LedgerOf(BySlot, actions)) == Truth(k, LedgerOf(ByTable, actions)) + Masked(k, MasksOf(actions))
  {
    RunExplained(k, env, actions);
    SumOfSums(k, Lasts(LedgerOf(ByTable, actions)), MasksOf(actions).live, Lasts(LedgerOf(BySlot, actions)));
  }

  // ---------------------------------------------------------------- results

  /**
    In every run, for any records, without overflow: at the end of a cycle the totals are the last counters really
    observed in all sessions ever seen, if and only if the counters regained and doubled equal those dropped and hidden.
   */
  lemma ObservedExact(k: Counter, env: Env, actions: seq<Action>)
    requires IsRun(env, actions) && AtReport(After(env, actions))
    requires 0 <= Expected(k, LedgerOf(ByTable, actions)) < TWO64
    ensures
      var l := LedgerOf(ByTable, actions);
      Of(k, Totals(After(env, actions))) == Truth(k, LedgerOf(BySlot, actions)) <==>
        Of(k, l.excess) + Of(k, l.doubled) == Of(k, l.dropped) + Masked(k, MasksOf(actions))
  {
    BytesAreConserved(k, env, actions);
    TruthIsShownAndMasked(k, env, actions);
  }

  /** Nothing is hidden when every table that reaches the TCPInfo slot has counters there. */
  lemma PresentIsUnmasked(k: Counter, env: Env, actions: seq<Action>)
    requires IsRun(env, actions) && Conservation.AllCountersPresent(actions)
    ensures Masked(k, MasksOf(actions)) == 0
  {
    Conservation.ViewsAgree(actions);
    TruthIsShownAndMasked(k, env, actions);
  }
}
