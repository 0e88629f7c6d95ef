/** The counters of new and expired connections against the size of the cache. */
module CacheCounts {
  import opened Bytes
  import InetDiag
  import opened Archival
  import opened Cache
  import opened SaverModel
  import FlowEvents
  import DeltaLog

  /** A record whose cookie has already come up in the same cycle. */
  predicate IsRepeat(s: State, a: Action) {
    a.Receive? && InetDiag.Parses(RawOf(a.record)) && InetDiag.Cookie(RawOf(a.record)) in s.core.cache.current
  }

  function Repeats(env: Env, actions: seq<Action>): nat
    requires IsRun(env, actions)
  {
    if actions == [] then 0
    else
      var n := |actions| - 1;
      RunSplits(env, actions);
      Repeats(env, actions[..n]) + if IsRepeat(After(env, actions[..n]), actions[n]) then 1 else 0
  }

  function Size(s: State): nat {
    |s.core.cache.current| + |s.core.cache.previous| + |s.residual|
  }

  lemma SizeOfSet(keys: set<U64>, c: U64)
    ensures |keys + {c}| == |keys| + if c in keys then 0 else 1
    ensures |keys - {c}| == |keys| - if c in keys then 1 else 0
  {
    if c in keys {
      assert keys + {c} == keys;
    } else {
      assert keys - {c} == keys;
    }
  }

  lemma SizeOfUpdate(m: Generation, c: U64, r: CachedRecord)
    ensures |m[c := r]| == |m| + if c in m then 0 else 1
    ensures |m - {c}| == |m| - if c in m then 1 else 0
  {
    var more, less := m[c := r], m - {c};
    assert |more| == |more.Keys| && |less| == |less.Keys| && |m| == |m.Keys|;
    assert more.Keys == m.Keys + {c};
    assert less.Keys == m.Keys - {c};
    SizeOfSet(m.Keys, c);
  }

  /** A step changes new less expired as it changes the size of the cache, but for a repeat. */
  predicate CountsMove(s: State, a: Action, s': State) {
    s'.core.counts.arrived - s.core.counts.arrived ==
      (s'.core.counts.expired - s.core.counts.expired) + (Size(s') - Size(s)) + if IsRepeat(s, a) then 1 else 0
  }

  lemma ReceiveCounts(env: Env, s: State, r: ArchivalRecord)
    requires Enabled(s, Receive(r)) && FlowEvents.CacheInv(s)
    ensures CountsMove(s, Receive(r), Step(env, s, Receive(r)))
  {
    if InetDiag.Parses(RawOf(r)) {
      var c := CookieOf(r);
      ReceiveParts(env, s, r);
      SizeOfUpdate(s.core.cache.current, c, r);
      SizeOfUpdate(s.core.cache.previous, c, r);
      var counts, counts' := s.core.counts, SwapAndQueue(env, s.core, r).counts;
      assert counts'.expired == counts.expired;
      assert counts'.arrived == counts.arrived + if c in s.core.cache.previous then 0 else 1;
      assert c in s.core.cache.current ==> c !in s.core.cache.previous;
    }
  }

  lemma CycleCounts(env: Env, s: State, a: Action)
    requires Enabled(s, a) && FlowEvents.CacheInv(s)
    requires a.EndCycle? || a.ExpireOne?
    ensures CountsMove(s, a, Step(env, s, a))
  {
    if a.EndCycle? {
      assert |s.residual| == 0;
    } else {
      SizeOfUpdate(s.residual, a.cookie, s.residual[a.cookie]);
    }
  }

  lemma ScrubCounts(env: Env, s: State, place: Place, c: U64, r: CachedRecord)
    requires Enabled(s, Scrub(place, c, r))
    ensures CountsMove(s, Scrub(place, c, r), Step(env, s, Scrub(place, c, r)))
  {
    SizeOfUpdate(GenerationAt(s, place), c, r);
  }

  lemma StepCounts(env: Env, s: State, a: Action)
    requires Enabled(s, a) && FlowEvents.CacheInv(s)
    ensures CountsMove(s, a, Step(env, s, a))
  {
    match a
    case Receive(r) => ReceiveCounts(env, s, r);
    case Scrub(place, c, r) => ScrubCounts(env, s, place, c, r);
    case ExpireOne(c) => CycleCounts(env, s, a);
    case EndCycle => CycleCounts(env, s, a);
    case EndBlock(_) =>
    case Close =>
    case CloseOne(_) =>
    case Stop =>
  }

  /**
    In every run the number of new connections less the number of expired ones is the size of the cache, plus
    the records that repeated a cookie within a cycle; at the end of a cycle it is the size of the cache exactly
    when no cookie was ever repeated within a cycle.
   */
  lemma {:induction false} NewLessExpired(env: Env, actions: seq<Action>)
    requires IsRun(env, actions)
    ensures
      var s := After(env, actions);
      && s.core.counts.arrived - s.core.counts.expired == Size(s) + Repeats(env, actions)
      && (s.phase.Expiring? && s.residual == map[] ==>
            (s.core.counts.arrived - s.core.counts.expired == |s.core.cache.previous| <==> Repeats(env, actions) == 0))
  {
    if actions == [] {
    } else {
      var n := |actions| - 1;
      RunSplits(env, actions);
      NewLessExpired(env, actions[..n]);
      DeltaLog.RunKeepsLog(env, actions[..n]);
      StepCounts(env, After(env, actions[..n]), actions[n]);
    }
    DeltaLog.RunKeepsLog(env, actions);
  }

  // ---------------------------------------------------------------- each counter

  function Count(actions: seq<Action>, which: Action -> bool): nat {
    if actions == [] then 0
    else Count(actions[..|actions| - 1], which) + if which(actions[|actions| - 1]) then 1 else 0
  }

  /** How many records have been handed to queue. */
  function Tries(es: seq<Effect>): nat {
    if es == [] then 0
    else Tries(es[..|es| - 1]) + if es[|es| - 1].Queued? || es[|es| - 1].Dropped? then 1 else 0
  }

  lemma TriesSnoc(es: seq<Effect>, e: Effect)
    ensures Tries(es + [e]) == Tries(es) + if e.Queued? || e.Dropped? then 1 else 0
  {
    assert (es + [e])[..|es|] == es;
  }

  lemma QueueTriesOnce(env: Env, o: Output, msg: CachedRecord)
    ensures Tries(Queue(env, o, msg).effects) == Tries(o.effects) + 1
  {
    var c := CookieOf(msg);
    if c == 0 {
      TriesSnoc(o.effects, Dropped(msg));
    } else {
      var o1 := Ensured(env, o, msg);
      var o2 := Retired(env, o1, c);
      if o2.effects != o1.effects {
        TriesSnoc(o1.effects, o2.effects[|o1.effects|]);
      }
      var o3 := Rotated(env, o2, c);
      if o3.effects != o2.effects {
        TriesSnoc(o2.effects, Opened(|o2.files|));
      }
      var w := o3.connections[c].writer;
      TriesSnoc(o3.effects, if w.None? then Dropped(msg) else Queued(ChannelOf(env, c), w.value, msg));
    }
  }

  lemma EndConnTriesNothing(env: Env, o: Output, cookie: U64)
    ensures Tries(EndConn(env, o, cookie).effects) == Tries(o.effects)
  {
    if cookie in o.connections && o.connections[cookie].writer.Some? {
      TriesSnoc(o.effects, CloseQueued(ChannelOf(env, cookie), o.connections[cookie].writer.value));
    }
  }

  predicate CountersTell(s: State, received: nat, expired: nat) {
    && s.core.counts.total == received && s.core.counts.expired == expired
    && s.core.counts.arrived + s.core.counts.diff == Tries(s.core.out.effects)
  }

  lemma StepTells(env: Env, s: State, a: Action, received: nat, expired: nat)
    requires Enabled(s, a) && CountersTell(s, received, expired)
    ensures CountersTell(
      Step(env, s, a), received + (if a.Receive? then 1 else 0), expired + (if a.ExpireOne? then 1 else 0))
  {
    match a
    case Receive(r) =>
      if InetDiag.Parses(RawOf(r)) {
        QueueTriesOnce(env, s.core.out, r);
      }
    case ExpireOne(c) => EndConnTriesNothing(env, s.core.out, c);
    case CloseOne(c) => EndConnTriesNothing(env, s.core.out, c);
    case _ =>
  }

  /**
    In every run TotalCount is the number of records received, ExpiredCount that of cookies expired, and NewCount and
    DiffCount together that of records handed to queue.
   */
  lemma {:induction false} CountersExact(env: Env, actions: seq<Action>)
    requires IsRun(env, actions)
    ensures CountersTell(
      After(env, actions), Count(actions, (a: Action) => a.Receive?), Count(actions, (a: Action) => a.ExpireOne?))
  {
    if actions == [] {
    } else {
      var n := |actions| - 1;
      RunSplits(env, actions);
      CountersExact(env, actions[..n]);
      StepTells(env, After(env, actions[..n]), actions[n],
        Count(actions[..n], (a: Action) => a.Receive?), Count(actions[..n], (a: Action) => a.ExpireOne?));
    }
  }
}
