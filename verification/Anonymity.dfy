/**
  Anonymization in place. A marshaller rewrites addresses in records that the cache still refers to; the
  saver's decisions, its output and its books are the same as if it never did.
 */
module Anonymity {
  import opened Bytes
  import InetDiag
  import opened Archival
  import opened Cache
  import opened SaverModel

  /** What a marshaller leaves of a cached record is a scrubbed version of it. */
  lemma AnonymizingScrubs(anon: InetDiag.Anonymizer, r: CachedRecord)
    ensures
      var a := InetDiag.Anonymize(anon, RawOf(r));
      a.Ok? ==>
        && var r' := r.(rawIDM := Some(a.raw));
        && InetDiag.Parses(RawOf(r')) && InfoLongEnough(r')
        && SameButAddresses(r, r')
        && InetDiag.Cookie(RawOf(r')) == CookieOf(r)
  {
    var a := InetDiag.Anonymize(anon, RawOf(r));
    if a.Ok? {
      InetDiag.AddressesDoNotMatter(RawOf(r), a.raw);
    }
  }

  /** The same cookies, with the same records but for addresses. */
  predicate SameGeneration(a: Generation, b: Generation) {
    a.Keys == b.Keys && forall c :: c in a ==> SameButAddresses(a[c], b[c])
  }

  /** Equal in everything but the addresses in cached records. */
  predicate SameState(a: State, b: State) {
    && SameGeneration(a.core.cache.current, b.core.cache.current)
    && SameGeneration(a.core.cache.previous, b.core.cache.previous)
    && SameGeneration(a.residual, b.residual)
    && a.core.closing == b.core.closing && a.core.out == b.core.out && a.core.counts == b.core.counts
    && a.tally == b.tally && a.phase == b.phase
  }

  /** The saver's own actions in a run. */
  function WithoutScrubs(actions: seq<Action>): seq<Action> {
    if actions == [] then []
    else
      var init, last := WithoutScrubs(actions[..|actions| - 1]), actions[|actions| - 1];
      if last.Scrub? then init else init + [last]
  }

  lemma SameAfterUpdate(a: Generation, b: Generation, c: U64, r: CachedRecord)
    requires SameGeneration(a, b)
    ensures SameGeneration(a[c := r], b[c := r]) && SameGeneration(a - {c}, b - {c})
  {
  }

  lemma SameComparison(x: CachedRecord, y: CachedRecord, r: CachedRecord)
    requires SameButAddresses(x, y)
    ensures Unchanged(r, x) == Unchanged(r, y)
    ensures HasDiagInfo(x) == HasDiagInfo(y) && GetStats(x) == GetStats(y)
  {
    AddressesDoNotMatter(r, r, x, y);
    AddressesDoNotMatter(x, y, r, r);
  }

  /** swapAndQueue decides alike. */
  lemma SameDecisions(env: Env, a: Core, b: Core, r: CachedRecord)
    requires SameGeneration(a.cache.current, b.cache.current) && SameGeneration(a.cache.previous, b.cache.previous)
    requires a.closing == b.closing && a.out == b.out && a.counts == b.counts
    ensures
      var a', b' := SwapAndQueue(env, a, r), SwapAndQueue(env, b, r);
      a'.closing == b'.closing && a'.out == b'.out && a'.counts == b'.counts
  {
    var c := CookieOf(r);
    if c in a.cache.previous {
      SameComparison(a.cache.previous[c], b.cache.previous[c], r);
    } else {
      assert c !in b.cache.previous;
    }
  }

  lemma ReceiveSame(env: Env, a: State, b: State, r: ArchivalRecord)
    requires SameState(a, b) && Enabled(a, Receive(r))
    ensures Enabled(b, Receive(r)) && SameState(Step(env, a, Receive(r)), Step(env, b, Receive(r)))
  {
    if InetDiag.Parses(RawOf(r)) {
      SameDecisions(env, a.core, b.core, r);
      SameAfterUpdate(a.core.cache.current, b.core.cache.current, CookieOf(r), r);
      SameAfterUpdate(a.core.cache.previous, b.core.cache.previous, CookieOf(r), r);
      ReceiveParts(env, a, r);
      ReceiveParts(env, b, r);
    }
  }

  lemma ExpireSame(env: Env, a: State, b: State, c: U64)
    requires SameState(a, b) && Enabled(a, ExpireOne(c))
    ensures Enabled(b, ExpireOne(c)) && SameState(Step(env, a, ExpireOne(c)), Step(env, b, ExpireOne(c)))
  {
    AddressesDoNotMatter(a.residual[c], b.residual[c], a.residual[c], b.residual[c]);
    SameAfterUpdate(a.residual, b.residual, c, a.residual[c]);
  }

  lemma EmptySame(a: Generation, b: Generation)
    requires SameGeneration(a, b)
    ensures a == map[] <==> b == map[]
  {
    assert a.Keys == {} <==> a == map[];
    assert b.Keys == {} <==> b == map[];
  }

  /** An action of the saver is possible in both states or in none, and leads to states that are again the same. */
  lemma StepSame(env: Env, a: State, b: State, action: Action)
    requires SameState(a, b) && Enabled(a, action) && !action.Scrub?
    ensures Enabled(b, action) && SameState(Step(env, a, action), Step(env, b, action))
  {
    EmptySame(a.residual, b.residual);
    EmptySame(a.core.cache.current, b.core.cache.current);
    match action
    case Receive(r) => ReceiveSame(env, a, b, r);
    case ExpireOne(c) => ExpireSame(env, a, b, c);
    case EndCycle =>
    case EndBlock(_) =>
    case Close =>
    case CloseOne(_) =>
    case Stop =>
  }

  lemma ScrubGeneration(a: Generation, b: Generation, c: U64, r: CachedRecord)
    requires SameGeneration(a, b) && c in b && SameButAddresses(b[c], r)
    ensures SameGeneration(a, b[c := r])
  {
  }

  lemma ScrubSame(a: State, b: State, place: Place, c: U64, r: CachedRecord)
    requires SameState(a, b) && Enabled(b, Scrub(place, c, r))
    ensures SameState(a, Scrubbed(b, place, c, r))
  {
    ScrubGeneration(GenerationAt(a, place), GenerationAt(b, place), c, r);
  }

  lemma SameIsSymmetric(a: State, b: State)
    requires SameState(a, b)
    ensures SameState(b, a)
  {
  }

  /**
    Leave out the anonymization from any run, wherever it interleaves: the rest is a run, with the same files,
    tasks, events, connections, counts, closing stats and totals, and the same cache up to addresses.
   */
  lemma {:induction false} AnonymizationIsInvisible(env: Env, actions: seq<Action>)
    requires IsRun(env, actions)
    ensures IsRun(env, WithoutScrubs(actions))
    ensures SameState(After(env, WithoutScrubs(actions)), After(env, actions))
  {
    if actions == [] {
    } else {
      var n := |actions| - 1;
      RunSplits(env, actions);
      AnonymizationIsInvisible(env, actions[..n]);
      var clean, s := After(env, WithoutScrubs(actions[..n])), After(env, actions[..n]);
      if actions[n].Scrub? {
        ScrubSame(clean, s, actions[n].place, actions[n].scrubbed, actions[n].rewritten);
      } else {
        SameIsSymmetric(clean, s);
        StepSame(env, s, clean, actions[n]);
        RunExtends(env, WithoutScrubs(actions[..n]), actions[n]);
        SameIsSymmetric(After(env, actions), After(env, WithoutScrubs(actions)));
      }
    }
  }
}
