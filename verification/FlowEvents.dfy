/** Open and close events, the set of connections, and when they agree with the cache. */
module FlowEvents {
  import opened Bytes
  import InetDiag
  import opened Archival
  import opened Cache
  import opened SaverModel
  import opened SmallRuns

  function CookieIn(e: FlowEvent): U64 {
    match e
    case FlowCreated(_, cookie, _) => cookie
    case FlowDeleted(_, cookie) => cookie
  }

  /** The events of one cookie, true for open. */
  function Trace(events: seq<FlowEvent>, cookie: U64): seq<bool> {
    if events == [] then []
    else
      var last := events[|events| - 1];
      Trace(events[..|events| - 1], cookie) + if CookieIn(last) == cookie then [last.FlowCreated?] else []
  }

  function Count(trace: seq<bool>, kind: bool): nat {
    if trace == [] then 0
    else Count(trace[..|trace| - 1], kind) + if trace[|trace| - 1] == kind then 1 else 0
  }

  predicate Alternates(trace: seq<bool>) {
    forall i :: 0 <= i < |trace| ==> trace[i] == (i % 2 == 0)
  }

  lemma TraceSnoc(events: seq<FlowEvent>, e: FlowEvent, cookie: U64)
    ensures Trace(events + [e], cookie) ==
      Trace(events, cookie) + if CookieIn(e) == cookie then [e.FlowCreated?] else []
  {
    assert (events + [e])[..|events|] == events;
  }

  lemma CountSnoc(trace: seq<bool>, x: bool, kind: bool)
    ensures Count(trace + [x], kind) == Count(trace, kind) + if x == kind then 1 else 0
  {
    assert (trace + [x])[..|trace|] == trace;
  }

  lemma {:induction false} AlternatingCounts(trace: seq<bool>)
    requires Alternates(trace)
    ensures Count(trace, true) == Count(trace, false) + |trace| % 2
  {
    if trace == [] {
    } else {
      AlternatingCounts(trace[..|trace| - 1]);
    }
  }

  /** endConn is asked to end a connection that does not exist, or has no file. */
  predicate IsStray(o: Output, cookie: U64) {
    cookie !in o.connections || o.connections[cookie].writer.None?
  }

  predicate EndsCookie(a: Action, cookie: U64) {
    (a.ExpireOne? || a.CloseOne?) && a.cookie == cookie
  }

  /** How often that happened to a cookie in a run. */
  function Strays(env: Env, actions: seq<Action>, cookie: U64): nat
    requires IsRun(env, actions)
  {
    if actions == [] then 0
    else
      var n := |actions| - 1;
      RunSplits(env, actions);
      var o := After(env, actions[..n]).core.out;
      Strays(env, actions[..n], cookie) + if EndsCookie(actions[n], cookie) && IsStray(o, cookie) then 1 else 0
  }

  // ---------------------------------------------------------------- one call

  function Present(o: Output, cookie: U64): nat {
    if cookie in o.connections then 1 else 0
  }

  /** queue opens a connection exactly when it did not exist, and says so. */
  lemma QueueEvents(env: Env, o: Output, msg: CachedRecord, cookie: U64)
    ensures
      var o' := Queue(env, o, msg);
      && Trace(o'.events, cookie) ==
           Trace(o.events, cookie) + (if Present(o', cookie) != Present(o, cookie) then [true] else [])
      && Present(o, cookie) <= Present(o', cookie)
  {
    QueueShape(env, o, msg);
    if CookieOf(msg) != 0 && CookieOf(msg) !in o.connections {
      TraceSnoc(o.events, FlowCreated(msg.timestamp, CookieOf(msg), InetDiag.GetSockID(RawOf(msg))), cookie);
    }
  }

  lemma EndConnEvents(env: Env, o: Output, ended: U64, cookie: U64)
    ensures
      var o' := EndConn(env, o, ended);
      && Trace(o'.events, cookie) == Trace(o.events, cookie) + (if ended == cookie then [false] else [])
      && Present(o', cookie) == if ended == cookie && !IsStray(o, cookie) then 0 else Present(o, cookie)
  {
    TraceSnoc(o.events, FlowDeleted(env.clock(o.ticks), ended), cookie);
  }

  // ---------------------------------------------------------------- every run

  /** The events of a cookie, in relation to its strays and to whether it has a connection. */
  predicate EventsAgree(trace: seq<bool>, strays: nat, present: nat) {
    && Count(trace, true) + strays == Count(trace, false) + present
    && (strays == 0 ==> Alternates(trace) && |trace| % 2 == present)
  }

  lemma AgreesAfterOpen(trace: seq<bool>, strays: nat)
    requires EventsAgree(trace, strays, 0)
    ensures EventsAgree(trace + [true], strays, 1)
  {
    CountSnoc(trace, true, true);
    CountSnoc(trace, true, false);
  }

  lemma AgreesAfterClose(trace: seq<bool>, strays: nat, present: nat, stray: bool)
    requires EventsAgree(trace, strays, present) && present <= 1
    requires !stray ==> present == 1
    ensures EventsAgree(trace + [false], if stray then strays + 1 else strays, if stray then present else 0)
  {
    CountSnoc(trace, false, true);
    CountSnoc(trace, false, false);
  }

  lemma QueueAgrees(env: Env, o: Output, msg: CachedRecord, cookie: U64, strays: nat)
    requires EventsAgree(Trace(o.events, cookie), strays, Present(o, cookie))
    ensures EventsAgree(Trace(Queue(env, o, msg).events, cookie), strays, Present(Queue(env, o, msg), cookie))
  {
    var trace := Trace(o.events, cookie);
    var o' := Queue(env, o, msg);
    QueueEvents(env, o, msg, cookie);
    if Present(o', cookie) != Present(o, cookie) {
      AgreesAfterOpen(trace, strays);
    } else {
      assert trace + [] == trace;
    }
  }

  lemma EndConnAgrees(env: Env, o: Output, ended: U64, cookie: U64, strays: nat)
    requires EventsAgree(Trace(o.events, cookie), strays, Present(o, cookie))
    ensures EventsAgree(Trace(EndConn(env, o, ended).events, cookie),
      if ended == cookie && IsStray(o, cookie) then strays + 1 else strays,
      Present(EndConn(env, o, ended), cookie))
  {
    var trace := Trace(o.events, cookie);
    EndConnEvents(env, o, ended, cookie);
    if ended == cookie {
      AgreesAfterClose(trace, strays, Present(o, cookie), IsStray(o, cookie));
    } else {
      assert trace + [] == trace;
    }
  }

  lemma {:induction false} RunKeepsEvents(env: Env, actions: seq<Action>, cookie: U64)
    requires IsRun(env, actions)
    ensures
      var o := After(env, actions).core.out;
      EventsAgree(Trace(o.events, cookie), Strays(env, actions, cookie), Present(o, cookie))
  {
    if actions == [] {
    } else {
      var n := |actions| - 1;
      RunSplits(env, actions);
      RunKeepsEvents(env, actions[..n], cookie);
      var s, a := After(env, actions[..n]), actions[n];
      var strays := Strays(env, actions[..n], cookie);
      StepOutput(env, s, a);
      if a.Receive? && InetDiag.Parses(RawOf(a.record)) {
        QueueAgrees(env, s.core.out, a.record, cookie, strays);
      }
      if a.ExpireOne? || a.CloseOne? {
        EndConnAgrees(env, s.core.out, a.cookie, cookie, strays);
      }
    }
  }

  /**
    In every run, opens plus strays equal closes plus the connections that exist. The events of a cookie strictly
    alternate from an open on, with its connection there exactly after an open, if and only if there are no strays.
   */
  lemma EventsOfEveryRun(env: Env, actions: seq<Action>, cookie: U64)
    requires IsRun(env, actions)
    ensures
      var o := After(env, actions).core.out;
      var trace, strays := Trace(o.events, cookie), Strays(env, actions, cookie);
      && Count(trace, true) + strays == Count(trace, false) + Present(o, cookie)
      && (strays == 0 <==> Alternates(trace) && |trace| % 2 == Present(o, cookie))
  {
    RunKeepsEvents(env, actions, cookie);
    var trace := Trace(After(env, actions).core.out.events, cookie);
    if Alternates(trace) {
      AlternatingCounts(trace);
    }
  }

  // ---------------------------------------------------------------- runs without failures

  /** Every attempt to open a file succeeds. */
  ghost predicate FilesOpen(env: Env) {
    forall i: nat :: env.opens(i)
  }

  predicate NonzeroCookie(a: Action) {
    a.Receive? && InetDiag.Parses(RawOf(a.record)) ==> InetDiag.Cookie(RawOf(a.record)) != 0
  }

  predicate NonzeroCookies(actions: seq<Action>) {
    forall i :: 0 <= i < |actions| ==> NonzeroCookie(actions[i])
  }

  predicate AllHaveFiles(o: Output) {
    forall c :: c in o.connections ==> o.connections[c].writer.Some?
  }

  /** The cookies that the saver still has to account for. */
  function Tracked(s: State): set<U64> {
    match s.phase
    case Receiving => Known(s.core.cache)
    case Expiring => s.core.cache.previous.Keys + s.residual.Keys
    case Shutting(todo) => todo
    case Stopped => {}
  }

  predicate CacheInv(s: State) {
    && Disjoint(s.core.cache)
    && (s.phase.Expiring? ==> s.core.cache.current == map[] && s.residual.Keys !! s.core.cache.previous.Keys)
    && (s.phase.Receiving? ==> s.residual == map[])
  }

  ghost predicate ConnectionsInv(s: State) {
    && CacheInv(s)
    && AllHaveFiles(s.core.out)
    && s.core.out.connections.Keys == Tracked(s)
  }

  lemma QueueGivesFile(env: Env, o: Output, msg: CachedRecord)
    requires FilesOpen(env) && AllHaveFiles(o) && CookieOf(msg) != 0
    ensures AllHaveFiles(Queue(env, o, msg))
  {
    var o1 := Ensured(env, o, msg);
    var o2 := Retired(env, o1, CookieOf(msg));
    assert forall c :: c in o2.connections && c != CookieOf(msg) ==> o2.connections[c].writer.Some?;
    assert env.opens(o2.attempts);
  }

  lemma UpdateAddsOne(c: Generations, r: CachedRecord)
    requires Disjoint(c)
    ensures Disjoint(Updated(c, r))
    ensures Known(Updated(c, r)) == Known(c) + {CookieOf(r)}
  {
  }

  lemma ReceiveKeepsConnections(env: Env, s: State, r: ArchivalRecord)
    requires Enabled(s, Receive(r)) && NonzeroCookie(Receive(r))
    requires FilesOpen(env) && ConnectionsInv(s)
    ensures ConnectionsInv(Step(env, s, Receive(r)))
  {
    if InetDiag.Parses(RawOf(r)) {
      ReceiveParts(env, s, r);
      QueueShape(env, s.core.out, r);
      QueueGivesFile(env, s.core.out, r);
      UpdateAddsOne(s.core.cache, r);
    }
  }

  lemma ExpireKeepsConnections(env: Env, s: State, cookie: U64)
    requires Enabled(s, ExpireOne(cookie)) && ConnectionsInv(s)
    ensures ConnectionsInv(Step(env, s, ExpireOne(cookie))) && !IsStray(s.core.out, cookie)
  {
    EndConnRemoves(env, s.core.out, cookie);
  }

  lemma CloseKeepsConnections(env: Env, s: State, cookie: U64)
    requires Enabled(s, CloseOne(cookie)) && ConnectionsInv(s)
    ensures ConnectionsInv(Step(env, s, CloseOne(cookie))) && !IsStray(s.core.out, cookie)
  {
    EndConnRemoves(env, s.core.out, cookie);
  }

  lemma ScrubKeepsConnections(env: Env, s: State, place: Place, c: U64, r: CachedRecord)
    requires Enabled(s, Scrub(place, c, r)) && ConnectionsInv(s)
    ensures ConnectionsInv(Step(env, s, Scrub(place, c, r)))
  {
    ScrubKeepsKeys(s, place, c, r);
    var s' := Step(env, s, Scrub(place, c, r));
    assert s'.phase == s.phase && s'.core.out == s.core.out;
    assert Tracked(s') == Tracked(s);
  }

  /** The cookies to account for stay the same, and no connection is touched. */
  lemma OthersKeepConnections(env: Env, s: State, a: Action)
    requires Enabled(s, a) && !a.Receive? && !a.ExpireOne? && !a.CloseOne? && ConnectionsInv(s)
    ensures ConnectionsInv(Step(env, s, a))
  {
    if a.Scrub? {
      ScrubKeepsConnections(env, s, a.place, a.scrubbed, a.rewritten);
    } else {
      var s' := Step(env, s, a);
      assert s'.core.out == s.core.out;
      assert Tracked(s') == s.core.out.connections.Keys;
    }
  }

  lemma StepKeepsConnections(env: Env, s: State, a: Action)
    requires Enabled(s, a) && NonzeroCookie(a)
    requires FilesOpen(env) && ConnectionsInv(s)
    ensures ConnectionsInv(Step(env, s, a))
    ensures (a.ExpireOne? || a.CloseOne?) ==> !IsStray(s.core.out, a.cookie)
  {
    match a
    case Receive(r) => ReceiveKeepsConnections(env, s, r);
    case ExpireOne(c) => ExpireKeepsConnections(env, s, c);
    case CloseOne(c) => CloseKeepsConnections(env, s, c);
    case _ => OthersKeepConnections(env, s, a);
  }

  lemma EndConnRemoves(env: Env, o: Output, cookie: U64)
    requires AllHaveFiles(o) && cookie in o.connections
    ensures AllHaveFiles(EndConn(env, o, cookie)) && !IsStray(o, cookie)
    ensures EndConn(env, o, cookie).connections.Keys == o.connections.Keys - {cookie}
  {
  }

  lemma ScrubKeepsKeys(s: State, place: Place, c: U64, r: CachedRecord)
    requires Enabled(s, Scrub(place, c, r))
    ensures
      var s' := Scrubbed(s, place, c, r);
      && s'.core.cache.current.Keys == s.core.cache.current.Keys
      && s'.core.cache.previous.Keys == s.core.cache.previous.Keys
      && s'.residual.Keys == s.residual.Keys
      && (s.core.cache.current == map[] ==> s'.core.cache.current == map[])
      && (s.residual == map[] ==> s'.residual == map[])
  {
  }

  lemma {:induction false} RunKeepsConnections(env: Env, actions: seq<Action>, cookie: U64)
    requires IsRun(env, actions)
    requires FilesOpen(env) && NonzeroCookies(actions)
    ensures ConnectionsInv(After(env, actions))
    ensures Strays(env, actions, cookie) == 0
  {
    if actions == [] {
    } else {
      var n := |actions| - 1;
      RunSplits(env, actions);
      RunKeepsConnections(env, actions[..n], cookie);
      assert NonzeroCookie(actions[n]);
      StepKeepsConnections(env, After(env, actions[..n]), actions[n]);
    }
  }

  /**
    With nonzero cookies and files that open: the connections are exactly the cached cookies before every
    message, exactly the new previous generation after the residual loop, and none in the end; and the events
    of every cookie alternate, with as many closes as opens in the end.
   */
  lemma ConnectionsFollowCache(env: Env, actions: seq<Action>, cookie: U64)
    requires IsRun(env, actions)
    requires FilesOpen(env) && NonzeroCookies(actions)
    ensures
      var s := After(env, actions);
      var trace := Trace(s.core.out.events, cookie);
      && (s.phase.Receiving? ==> s.core.out.connections.Keys == s.core.cache.current.Keys + s.core.cache.previous.Keys)
      && (s.phase.Expiring? && s.residual == map[] ==> s.core.out.connections.Keys == s.core.cache.previous.Keys)
      && Alternates(trace)
      && (|trace| % 2 == 1 <==> cookie in s.core.out.connections)
      && (s.phase.Stopped? ==> s.core.out.connections == map[] && Count(trace, true) == Count(trace, false))
  {
    RunKeepsConnections(env, actions, cookie);
    EventsOfEveryRun(env, actions, cookie);
  }

  /** Whatever fails, opens and closes of a cookie balance exactly when its strays are the connections left behind. */
  lemma BalanceExact(env: Env, actions: seq<Action>, cookie: U64)
    requires IsRun(env, actions)
    ensures
      var o := After(env, actions).core.out;
      var trace := Trace(o.events, cookie);
      Count(trace, true) == Count(trace, false) <==> Strays(env, actions, cookie) == Present(o, cookie)
  {
    EventsOfEveryRun(env, actions, cookie);
  }

  // ---------------------------------------------------------------- how the balance fails

  lemma NoEvents(env: Env, cookie: U64)
    ensures IsRun(env, []) && Between(After(env, []), cookie) && After(env, []).core.out == NO_OUTPUT
  {
  }

  /** A connection with cookie 0 is never opened and yet closed: ConnectionsFollowCache needs nonzero cookies. */
  lemma ZeroCookieUnbalances(env: Env, r: CachedRecord, t: Time)
    requires CookieOf(r) == 0
    ensures
      var run := Gone(OneRecord([], r, t), 0, t);
      IsRun(env, run) && Trace(After(env, run).core.out.events, 0) == [false]
  {
    NoEvents(env, 0);
    OneRecordRuns(env, [], r, t);
    var before := OneRecord([], r, t);
    var o := After(env, before).core.out;
    assert o.events == [];
    GoneRuns(env, before, 0, t);
    EndConnEvents(env, o, 0, 0);
  }

  /** The saver shuts down while one connection is left. */
  function ShutDown(before: seq<Action>, cookie: U64): seq<Action> {
    before + [Close] + [CloseOne(cookie)] + [Stop]
  }

  lemma ShutDownRuns(env: Env, before: seq<Action>, cookie: U64)
    requires IsRun(env, before) && Between(After(env, before), cookie)
    requires After(env, before).core.out.connections.Keys == {cookie}
    ensures
      var run := ShutDown(before, cookie);
      && IsRun(env, run) && After(env, run).phase.Stopped?
      && After(env, run).core.out == EndConn(env, After(env, before).core.out, cookie)
  {
    RunExtends(env, before, Close);
    var run := before + [Close];
    RunExtends(env, run, CloseOne(cookie));
    assert After(env, run).phase.todo - {cookie} == {};
    RunExtends(env, run + [CloseOne(cookie)], Stop);
  }

  lemma OpensWithoutFile(env: Env, r: CachedRecord)
    requires CookieOf(r) != 0 && !env.opens(0)
    ensures
      var o := Queue(env, NO_OUTPUT, r);
      && o.connections.Keys == {CookieOf(r)} && o.connections[CookieOf(r)].writer.None?
      && Trace(o.events, CookieOf(r)) == [true]
  {
    QueueEvents(env, NO_OUTPUT, r, CookieOf(r));
    QueueShape(env, NO_OUTPUT, r);
  }

  lemma EndsWithoutFile(env: Env, o: Output, cookie: U64)
    requires cookie in o.connections && o.connections[cookie].writer.None?
    ensures
      var o' := EndConn(env, o, cookie);
      o'.connections == o.connections && Trace(o'.events, cookie) == Trace(o.events, cookie) + [false]
  {
    EndConnEvents(env, o, cookie, cookie);
  }

  lemma ClosedTwice(env: Env, before: seq<Action>, cookie: U64, t: Time)
    requires IsRun(env, before) && Between(After(env, before), cookie)
    requires cookie in After(env, before).core.cache.previous
    requires
      var o := After(env, before).core.out;
      o.connections.Keys == {cookie} && o.connections[cookie].writer.None?
    ensures
      var run := ShutDown(Gone(before, cookie, t), cookie);
      && IsRun(env, run) && After(env, run).phase.Stopped?
      && Trace(After(env, run).core.out.events, cookie) ==
           Trace(After(env, before).core.out.events, cookie) + [false] + [false]
  {
    GoneRuns(env, before, cookie, t);
    EndsWithoutFile(env, After(env, before).core.out, cookie);
    var gone := Gone(before, cookie, t);
    ShutDownRuns(env, gone, cookie);
    EndsWithoutFile(env, After(env, gone).core.out, cookie);
  }

  /**
    When its only file fails to open, a connection is opened once and closed twice, as it expires and again at shutdown:
    files that open cannot be left out of ConnectionsFollowCache.
   */
  lemma FailedOpenUnbalances(env: Env, r: CachedRecord, t: Time)
    requires CookieOf(r) != 0 && !env.opens(0)
    ensures
      var run := ShutDown(Gone(OneRecord([], r, t), CookieOf(r), t), CookieOf(r));
      && IsRun(env, run) && After(env, run).phase.Stopped?
      && Trace(After(env, run).core.out.events, CookieOf(r)) == [true, false, false]
  {
    var c := CookieOf(r);
    NoEvents(env, c);
    OneRecordRuns(env, [], r, t);
    OpensWithoutFile(env, r);
    ClosedTwice(env, OneRecord([], r, t), c, t);
  }
}
