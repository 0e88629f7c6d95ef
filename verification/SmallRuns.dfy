/** Runs with a single connection, for showing how things go wrong. */
module SmallRuns {
  import opened Bytes
  import opened Archival
  import opened Cache
  import opened SaverModel

  /** Between two blocks, with nothing cached but, perhaps, one record of this cookie. */
  predicate Between(s: State, cookie: U64) {
    && s.phase.Receiving? && s.core.cache.current == map[] && s.residual == map[]
    && s.core.cache.previous.Keys <= {cookie}
  }

  /** A block with one record. */
  function OneRecord(before: seq<Action>, r: CachedRecord, t: Time): seq<Action> {
    before + [Receive(r)] + [EndCycle] + [EndBlock(t)]
  }

  /** What ClosingStats and ClosingTotals become by one record. */
  function ClosingAfter(c: Core, r: CachedRecord): Closing {
    var cookie := CookieOf(r);
    if cookie in c.cache.previous then NoteClosing(c.closing, cookie, r, c.cache.previous[cookie]) else c.closing
  }

  /** What files, connections and events become by one record. */
  function OutputAfter(env: Env, c: Core, r: CachedRecord): Output {
    var cookie := CookieOf(r);
    if cookie in c.cache.previous && Unchanged(r, c.cache.previous[cookie]) then c.out else Queue(env, c.out, r)
  }

  lemma ReceiveAlone(env: Env, s: State, r: CachedRecord)
    requires Between(s, CookieOf(r))
    ensures
      var s' := Step(env, s, Receive(r));
      && s'.phase.Receiving? && s'.residual == map[]
      && s'.core.cache == Generations(map[CookieOf(r) := r], map[])
      && s'.core.closing == ClosingAfter(s.core, r) && s'.core.out == OutputAfter(env, s.core, r)
  {
    ReceiveParts(env, s, r);
    assert s.core.cache.previous - {CookieOf(r)} == map[];
  }

  lemma EndCycleAlone(env: Env, s: State, cookie: U64, r: CachedRecord)
    requires s.phase.Receiving? && s.residual == map[] && s.core.cache == Generations(map[cookie := r], map[])
    ensures
      var s' := Step(env, s, EndCycle);
      && s'.phase.Expiring? && s'.residual == map[] && s'.core.cache == Generations(map[], map[cookie := r])
      && s'.core.closing == s.core.closing && s'.core.out == s.core.out
  {
  }

  lemma EndBlockAlone(env: Env, s: State, t: Time)
    requires s.phase.Expiring? && s.residual == map[]
    ensures
      && Enabled(s, EndBlock(t))
      && var s' := Step(env, s, EndBlock(t));
      s'.phase.Receiving? && s'.residual == map[] && s'.core == s.core
  {
  }

  lemma OneRecordRuns(env: Env, before: seq<Action>, r: CachedRecord, t: Time)
    requires IsRun(env, before) && Between(After(env, before), CookieOf(r))
    ensures
      var run := OneRecord(before, r, t);
      && IsRun(env, run)
      && var s, s' := After(env, before), After(env, run);
      && Between(s', CookieOf(r)) && s'.core.cache == Generations(map[], map[CookieOf(r) := r])
      && s'.core.closing == ClosingAfter(s.core, r) && s'.core.out == OutputAfter(env, s.core, r)
  {
    var c := CookieOf(r);
    RunExtends(env, before, Receive(r));
    ReceiveAlone(env, After(env, before), r);
    var run := before + [Receive(r)];
    RunExtends(env, run, EndCycle);
    EndCycleAlone(env, After(env, run), c, r);
    EndBlockAlone(env, After(env, run + [EndCycle]), t);
    RunExtends(env, run + [EndCycle], EndBlock(t));
  }

  /** The cookie is not seen any more, and expires. */
  function Gone(before: seq<Action>, cookie: U64, t: Time): seq<Action> {
    before + [EndCycle] + [ExpireOne(cookie)] + [EndBlock(t)]
  }

  lemma CookieExpires(env: Env, s: State, cookie: U64)
    requires s.phase.Expiring? && s.residual.Keys == {cookie} && s.core.cache == EMPTY_CACHE
    ensures
      var s' := Step(env, s, ExpireOne(cookie));
      && s'.phase.Expiring? && s'.residual == map[] && s'.core.cache == EMPTY_CACHE
      && s'.core.out == EndConn(env, s.core.out, cookie)
  {
    assert s.residual - {cookie} == map[];
  }

  lemma GoneRuns(env: Env, before: seq<Action>, cookie: U64, t: Time)
    requires IsRun(env, before) && Between(After(env, before), cookie)
    requires cookie in After(env, before).core.cache.previous
    ensures
      var run := Gone(before, cookie, t);
      && IsRun(env, run)
      && var s, s' := After(env, before), After(env, run);
      && Between(s', cookie) && s'.core.cache == EMPTY_CACHE
      && s'.core.out == EndConn(env, s.core.out, cookie)
  {
    RunExtends(env, before, EndCycle);
    var run := before + [EndCycle];
    RunExtends(env, run, ExpireOne(cookie));
    CookieExpires(env, After(env, run), cookie);
    EndBlockAlone(env, After(env, run + [ExpireOne(cookie)]), t);
    RunExtends(env, run + [ExpireOne(cookie)], EndBlock(t));
  }
}
