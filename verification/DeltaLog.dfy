/** What the log of a connection says about the connection: the delta log is lossless up to ignored fields. */
module DeltaLog {
  import opened Bytes
  import InetDiag
  import opened Archival
  import opened Cache
  import opened SaverModel
  import FlowEvents
  import opened SmallRuns

  /** The effect of handing a record of this cookie to queue. */
  predicate Tries(e: Effect, cookie: U64) {
    (e.Queued? || e.Dropped?) && CookieOf(e.message) == cookie
  }

  /** The last time a record of this cookie was handed to queue: Queued if it went to a file, Dropped if not. */
  function LastTry(es: seq<Effect>, cookie: U64): (r: Option<Effect>)
    ensures r.Some? ==> Tries(r.value, cookie)
  {
    if es == [] then None
    else if Tries(es[|es| - 1], cookie) then Some(es[|es| - 1])
    else LastTry(es[..|es| - 1], cookie)
  }

  /** Two records that differ at most in addresses and in fields that Compare ignores. */
  predicate Similar(a: CachedRecord, b: CachedRecord) {
    SameButAddresses(a, b) || Unchanged(a, b)
  }

  lemma SimilarThroughUnchanged(a: CachedRecord, b: CachedRecord, c: CachedRecord)
    requires Unchanged(a, b) && Similar(b, c)
    ensures Similar(a, c)
  {
    if SameButAddresses(b, c) {
      AddressesDoNotMatter(a, a, b, c);
    } else {
      UnchangedIsEquivalence(a, b, c);
    }
  }

  lemma SimilarThroughScrub(a: CachedRecord, b: CachedRecord, c: CachedRecord)
    requires SameButAddresses(b, a) && Similar(b, c)
    ensures Similar(a, c)
  {
    if Unchanged(b, c) {
      AddressesDoNotMatter(b, a, c, c);
    }
  }

  lemma TrySnoc(es: seq<Effect>, e: Effect, cookie: U64)
    ensures LastTry(es + [e], cookie) == if Tries(e, cookie) then Some(e) else LastTry(es, cookie)
  {
    assert (es + [e])[..|es|] == es;
  }

  lemma RetiredIsNoTry(env: Env, o: Output, c: U64, cookie: U64)
    requires c in o.connections
    ensures LastTry(Retired(env, o, c).effects, cookie) == LastTry(o.effects, cookie)
  {
    var o' := Retired(env, o, c);
    if o'.effects != o.effects {
      TrySnoc(o.effects, o'.effects[|o.effects|], cookie);
    }
  }

  lemma RotatedIsNoTry(env: Env, o: Output, c: U64, cookie: U64)
    requires c in o.connections
    ensures LastTry(Rotated(env, o, c).effects, cookie) == LastTry(o.effects, cookie)
  {
    if Rotated(env, o, c).effects != o.effects {
      TrySnoc(o.effects, Opened(|o.files|), cookie);
    }
  }

  /** queue is the last try for its record's cookie, and no try for any other. */
  lemma QueueIsATry(env: Env, o: Output, msg: CachedRecord, cookie: U64)
    ensures
      var r := LastTry(Queue(env, o, msg).effects, cookie);
      if cookie == CookieOf(msg) then r.Some? && r.value.message == msg else r == LastTry(o.effects, cookie)
  {
    var c := CookieOf(msg);
    if c == 0 {
      TrySnoc(o.effects, Dropped(msg), cookie);
    } else {
      var o1 := Ensured(env, o, msg);
      RetiredIsNoTry(env, o1, c, cookie);
      var o2 := Retired(env, o1, c);
      RotatedIsNoTry(env, o2, c, cookie);
      var o3 := Rotated(env, o2, c);
      var w := o3.connections[c].writer;
      TrySnoc(o3.effects, if w.None? then Dropped(msg) else Queued(ChannelOf(env, c), w.value, msg), cookie);
    }
  }

  lemma EndConnIsNoTry(env: Env, o: Output, ended: U64, cookie: U64)
    ensures LastTry(EndConn(env, o, ended).effects, cookie) == LastTry(o.effects, cookie)
  {
    if ended in o.connections && o.connections[ended].writer.Some? {
      TrySnoc(o.effects, CloseQueued(ChannelOf(env, ended), o.connections[ended].writer.value), cookie);
    }
  }

  // ---------------------------------------------------------------- the invariant

  predicate UpToDate(s: State, cookie: U64)
    requires cookie in Known(s.core.cache)
  {
    var tried := LastTry(s.core.out.effects, cookie);
    tried.Some? && Similar(Newest(s.core.cache, cookie), tried.value.message)
  }

  ghost predicate LogInv(s: State) {
    forall c :: c in Known(s.core.cache) ==> UpToDate(s, c)
  }

  lemma ReceiveKeepsLog(env: Env, s: State, r: ArchivalRecord, cookie: U64)
    requires Enabled(s, Receive(r)) && InetDiag.Parses(RawOf(r))
    requires Disjoint(s.core.cache) && LogInv(s)
    requires cookie in Known(Step(env, s, Receive(r)).core.cache)
    ensures UpToDate(Step(env, s, Receive(r)), cookie)
  {
    ReceiveParts(env, s, r);
    var c := CookieOf(r);
    var cache := s.core.cache;
    assert cookie != c ==> cookie in Known(cache) && UpToDate(s, cookie);
    if c in cache.previous && Unchanged(r, cache.previous[c]) {
      assert UpToDate(s, c);
      SimilarThroughUnchanged(r, cache.previous[c], LastTry(s.core.out.effects, c).value.message);
    } else {
      QueueIsATry(env, s.core.out, r, cookie);
    }
  }

  lemma ScrubKeepsLog(s: State, place: Place, scrubbed: U64, r: CachedRecord, cookie: U64)
    requires Enabled(s, Scrub(place, scrubbed, r))
    requires Disjoint(s.core.cache) && LogInv(s)
    requires cookie in Known(Scrubbed(s, place, scrubbed, r).core.cache)
    ensures UpToDate(Scrubbed(s, place, scrubbed, r), cookie)
  {
    FlowEvents.ScrubKeepsKeys(s, place, scrubbed, r);
    assert UpToDate(s, cookie);
    if cookie == scrubbed && !place.InResidual? {
      SimilarThroughScrub(r, Newest(s.core.cache, cookie), LastTry(s.core.out.effects, cookie).value.message);
    }
  }

  lemma StepKeepsLog(env: Env, s: State, a: Action)
    requires Enabled(s, a)
    requires Disjoint(s.core.cache) && LogInv(s)
    ensures LogInv(Step(env, s, a))
  {
    var s' := Step(env, s, a);
    forall c | c in Known(s'.core.cache) ensures UpToDate(s', c) {
      match a
      case Receive(r) =>
        if InetDiag.Parses(RawOf(r)) {
          ReceiveKeepsLog(env, s, r, c);
        } else {
          assert UpToDate(s, c);
        }
      case Scrub(place, scrubbed, r) => ScrubKeepsLog(s, place, scrubbed, r, c);
      case ExpireOne(ended) =>
        assert UpToDate(s, c);
        EndConnIsNoTry(env, s.core.out, ended, c);
      case CloseOne(ended) =>
        assert UpToDate(s, c);
        EndConnIsNoTry(env, s.core.out, ended, c);
      case EndCycle => assert UpToDate(s, c);
      case EndBlock(_) => assert UpToDate(s, c);
      case Close => assert UpToDate(s, c);
      case Stop => assert UpToDate(s, c);
    }
  }

  lemma StepKeepsCache(env: Env, s: State, a: Action)
    requires Enabled(s, a) && FlowEvents.CacheInv(s)
    ensures FlowEvents.CacheInv(Step(env, s, a))
  {
    if a.Receive? && InetDiag.Parses(RawOf(a.record)) {
      ReceiveParts(env, s, a.record);
    }
    if a.Scrub? {
      FlowEvents.ScrubKeepsKeys(s, a.place, a.scrubbed, a.rewritten);
    }
  }

  lemma {:induction false} RunKeepsLog(env: Env, actions: seq<Action>)
    requires IsRun(env, actions)
    ensures FlowEvents.CacheInv(After(env, actions)) && LogInv(After(env, actions))
  {
    if actions == [] {
    } else {
      var n := |actions| - 1;
      RunSplits(env, actions);
      RunKeepsLog(env, actions[..n]);
      StepKeepsCache(env, After(env, actions[..n]), actions[n]);
      StepKeepsLog(env, After(env, actions[..n]), actions[n]);
    }
  }

  // ---------------------------------------------------------------- when queue fails

  /** An action hands a record of this cookie to queue. */
  predicate HandsOver(s: State, a: Action, cookie: U64)
    requires Enabled(s, a)
  {
    && a.Receive? && InetDiag.Parses(RawOf(a.record)) && CookieOf(a.record) == cookie
    && !(cookie in s.core.cache.previous && Unchanged(a.record, s.core.cache.previous[cookie]))
  }

  /** The connection has a file that is not due to be replaced. */
  predicate KeepsFile(env: Env, o: Output, cookie: U64) {
    && cookie in o.connections && o.connections[cookie].writer.Some?
    && env.clock(o.ticks) <= o.connections[cookie].expiration
  }

  /** What queue needs in order not to fail: a cookie, and a file that is there or can be opened. */
  predicate Delivers(env: Env, o: Output, msg: CachedRecord) {
    CookieOf(msg) != 0 && (KeepsFile(env, o, CookieOf(msg)) || env.opens(o.attempts))
  }

  /** queue puts its record into a file exactly under that condition. */
  lemma QueueOutcome(env: Env, o: Output, msg: CachedRecord)
    ensures
      var tried := LastTry(Queue(env, o, msg).effects, CookieOf(msg));
      tried.Some? && tried.value.message == msg && (tried.value.Queued? <==> Delivers(env, o, msg))
  {
    var c := CookieOf(msg);
    if c == 0 {
      TrySnoc(o.effects, Dropped(msg), c);
    } else {
      var o2 := Retired(env, Ensured(env, o, msg), c);
      assert o2.connections[c].writer.Some? <==> KeepsFile(env, o, c);
      assert o2.attempts == o.attempts;
      var o3 := Rotated(env, o2, c);
      var w := o3.connections[c].writer;
      TrySnoc(o3.effects, if w.None? then Dropped(msg) else Queued(ChannelOf(env, c), w.value, msg), c);
    }
  }

  lemma StepTries(env: Env, s: State, a: Action, cookie: U64)
    requires Enabled(s, a)
    ensures
      var was, tried := LastTry(s.core.out.effects, cookie), LastTry(Step(env, s, a).core.out.effects, cookie);
      if HandsOver(s, a, cookie) then tried.Some? && (tried.value.Queued? <==> Delivers(env, s.core.out, a.record))
      else tried == was
  {
    StepOutput(env, s, a);
    if a.Receive? && InetDiag.Parses(RawOf(a.record)) {
      ReceiveParts(env, s, a.record);
      QueueIsATry(env, s.core.out, a.record, cookie);
      QueueOutcome(env, s.core.out, a.record);
    }
    if a.ExpireOne? || a.CloseOne? {
      EndConnIsNoTry(env, s.core.out, a.cookie, cookie);
    }
  }

  /** Whether queue had what it needs the last time a record of this cookie was handed to it. */
  function LastDelivers(env: Env, actions: seq<Action>, cookie: U64): Option<bool>
    requires IsRun(env, actions)
  {
    if actions == [] then None
    else
      var n := |actions| - 1;
      RunSplits(env, actions);
      var s := After(env, actions[..n]);
      if HandsOver(s, actions[n], cookie) then Some(Delivers(env, s.core.out, actions[n].record))
      else LastDelivers(env, actions[..n], cookie)
  }

  lemma {:induction false} LastTryExact(env: Env, actions: seq<Action>, cookie: U64)
    requires IsRun(env, actions)
    ensures
      var tried := LastTry(After(env, actions).core.out.effects, cookie);
      LastDelivers(env, actions, cookie) == if tried.None? then None else Some(tried.value.Queued?)
  {
    if actions == [] {
    } else {
      var n := |actions| - 1;
      RunSplits(env, actions);
      LastTryExact(env, actions[..n], cookie);
      StepTries(env, After(env, actions[..n]), actions[n], cookie);
    }
  }

  // ---------------------------------------------------------------- nothing dropped

  predicate NoDrops(es: seq<Effect>) {
    forall i :: 0 <= i < |es| ==> !es[i].Dropped?
  }

  /** queue fails for none of the records handed to it. */
  predicate AlwaysDelivers(env: Env, actions: seq<Action>)
    requires IsRun(env, actions)
  {
    actions == [] ||
    (var n := |actions| - 1;
     RunSplits(env, actions);
     var s, a := After(env, actions[..n]), actions[n];
     && AlwaysDelivers(env, actions[..n])
     && (a.Receive? && InetDiag.Parses(RawOf(a.record)) && HandsOver(s, a, CookieOf(a.record)) ==>
           Delivers(env, s.core.out, a.record)))
  }

  lemma NoDropsSnoc(es: seq<Effect>, e: Effect)
    ensures NoDrops(es + [e]) <==> NoDrops(es) && !e.Dropped?
  {
    assert (es + [e])[|es|] == e;
    assert forall i :: 0 <= i < |es| ==> (es + [e])[i] == es[i];
  }

  lemma QueueDrops(env: Env, o: Output, msg: CachedRecord)
    ensures NoDrops(Queue(env, o, msg).effects) <==> NoDrops(o.effects) && Delivers(env, o, msg)
  {
    var c := CookieOf(msg);
    if c == 0 {
      NoDropsSnoc(o.effects, Dropped(msg));
    } else {
      var o1 := Ensured(env, o, msg);
      var o2 := Retired(env, o1, c);
      if o2.effects != o1.effects {
        NoDropsSnoc(o1.effects, o2.effects[|o1.effects|]);
      }
      assert o2.connections[c].writer.Some? <==> KeepsFile(env, o, c);
      var o3 := Rotated(env, o2, c);
      if o3.effects != o2.effects {
        NoDropsSnoc(o2.effects, Opened(|o2.files|));
      }
      var w := o3.connections[c].writer;
      NoDropsSnoc(o3.effects, if w.None? then Dropped(msg) else Queued(ChannelOf(env, c), w.value, msg));
    }
  }

  lemma EndConnDropsNothing(env: Env, o: Output, cookie: U64)
    ensures NoDrops(EndConn(env, o, cookie).effects) <==> NoDrops(o.effects)
  {
    if cookie in o.connections && o.connections[cookie].writer.Some? {
      NoDropsSnoc(o.effects, CloseQueued(ChannelOf(env, cookie), o.connections[cookie].writer.value));
    }
  }

  /** In every run, no record handed to queue is dropped if and only if queue always had what it needs. */
  lemma {:induction false} DropsExact(env: Env, actions: seq<Action>)
    requires IsRun(env, actions)
    ensures NoDrops(After(env, actions).core.out.effects) <==> AlwaysDelivers(env, actions)
  {
    if actions == [] {
    } else {
      var n := |actions| - 1;
      RunSplits(env, actions);
      DropsExact(env, actions[..n]);
      var s, a := After(env, actions[..n]), actions[n];
      StepOutput(env, s, a);
      if a.Receive? && InetDiag.Parses(RawOf(a.record)) {
        ReceiveParts(env, s, a.record);
        QueueDrops(env, s.core.out, a.record);
      }
      if a.ExpireOne? || a.CloseOne? {
        EndConnDropsNothing(env, s.core.out, a.cookie);
      }
    }
  }

  /** With nonzero cookies and files that open, nothing is dropped. */
  lemma {:induction false} NothingDropped(env: Env, actions: seq<Action>)
    requires IsRun(env, actions)
    requires FlowEvents.FilesOpen(env) && FlowEvents.NonzeroCookies(actions)
    ensures AlwaysDelivers(env, actions) && NoDrops(After(env, actions).core.out.effects)
  {
    if actions == [] {
    } else {
      var n := |actions| - 1;
      RunSplits(env, actions);
      NothingDropped(env, actions[..n]);
      assert FlowEvents.NonzeroCookie(actions[n]);
      assert env.opens(After(env, actions[..n]).core.out.attempts);
    }
    DropsExact(env, actions);
  }

  // ---------------------------------------------------------------- results

  /**
    At every point of every run, with any in-place anonymization going on, the last record handed to queue for
    a cached cookie is similar to the newest record of that cookie, however many unqueued records lie between.
    It was queued if and only if queue had what it needs at that moment.
   */
  lemma DeltaLogIsLossless(env: Env, actions: seq<Action>, cookie: U64)
    requires IsRun(env, actions)
    requires cookie in Known(After(env, actions).core.cache)
    ensures
      var s := After(env, actions);
      var tried := LastTry(s.core.out.effects, cookie);
      && tried.Some?
      && CookieOf(tried.value.message) == cookie
      && Similar(Newest(s.core.cache, cookie), tried.value.message)
      && (tried.value.Queued? <==> LastDelivers(env, actions, cookie) == Some(true))
  {
    RunKeepsLog(env, actions);
    assert UpToDate(After(env, actions), cookie);
    LastTryExact(env, actions, cookie);
  }

  /** Since the first m actions, no record of the cookie was handed to queue, whatever else happened. */
  predicate QuietSince(env: Env, actions: seq<Action>, m: nat, cookie: U64)
    requires IsRun(env, actions) && m <= |actions|
  {
    m == |actions| ||
    (var n := |actions| - 1;
     RunSplits(env, actions);
     QuietSince(env, actions[..n], m, cookie) && !HandsOver(After(env, actions[..n]), actions[n], cookie))
  }

  lemma {:induction false} LastTryStays(env: Env, actions: seq<Action>, m: nat, cookie: U64)
    requires IsRun(env, actions) && m <= |actions| && QuietSince(env, actions, m, cookie)
    ensures IsRun(env, actions[..m])
    ensures LastTry(After(env, actions).core.out.effects, cookie) ==
      LastTry(After(env, actions[..m]).core.out.effects, cookie)
  {
    if m == |actions| {
      assert actions[..m] == actions;
    } else {
      var n := |actions| - 1;
      RunSplits(env, actions);
      LastTryStays(env, actions[..n], m, cookie);
      StepTries(env, After(env, actions[..n]), actions[n], cookie);
      assert actions[..n][..m] == actions[..m];
    }
  }

  /**
    A record that queue failed on stays the last try, through any number of blocks, as long as no record of the
    connection differs from the one before; and then the newest record is one that was not queued, up to ignored
    fields.
   */
  lemma DroppedStaysDropped(env: Env, actions: seq<Action>, m: nat, cookie: U64)
    requires IsRun(env, actions) && m <= |actions| && QuietSince(env, actions, m, cookie)
    requires IsRun(env, actions[..m]) && LastDelivers(env, actions[..m], cookie) == Some(false)
    ensures
      var s := After(env, actions);
      var tried := LastTry(s.core.out.effects, cookie);
      && tried.Some? && tried.value.Dropped?
      && (cookie in Known(s.core.cache) ==> Similar(Newest(s.core.cache, cookie), tried.value.message))
  {
    LastTryStays(env, actions, m, cookie);
    LastTryExact(env, actions[..m], cookie);
    if cookie in Known(After(env, actions).core.cache) {
      DeltaLogIsLossless(env, actions, cookie);
    }
  }

  // ---------------------------------------------------------------- how it goes wrong

  /** The same record, a block each time. */
  function SameAgain(r: CachedRecord, t: Time, blocks: nat): seq<Action> {
    if blocks == 0 then [] else OneRecord(SameAgain(r, t, blocks - 1), r, t)
  }

  lemma QueueWithoutFile(env: Env, r: CachedRecord)
    requires CookieOf(r) != 0 && !env.opens(0)
    ensures Queue(env, NO_OUTPUT, r).effects == [Dropped(r)]
  {
  }

  /**
    When the first file of a connection fails to open and the connection then does not change, nothing is ever queued
    for it, however many blocks show it, and even if every later attempt to open a file would succeed.
   */
  lemma {:induction false} FailedOpenStaysLost(env: Env, r: CachedRecord, t: Time, blocks: nat)
    requires CookieOf(r) != 0 && !env.opens(0) && Unchanged(r, r) && blocks > 0
    ensures
      var run := SameAgain(r, t, blocks);
      && IsRun(env, run) && Between(After(env, run), CookieOf(r))
      && After(env, run).core.cache == Generations(map[], map[CookieOf(r) := r])
      && After(env, run).core.out.effects == [Dropped(r)]
  {
    if blocks == 1 {
      assert SameAgain(r, t, 0) == [];
      OneRecordRuns(env, [], r, t);
      QueueWithoutFile(env, r);
    } else {
      FailedOpenStaysLost(env, r, t, blocks - 1);
      OneRecordRuns(env, SameAgain(r, t, blocks - 1), r, t);
    }
  }
}
