/** What the events say beside their cookies: times and addresses, and whose they are. */
module EventDetails {
  import opened Bytes
  import InetDiag
  import opened Archival
  import opened Cache
  import opened SaverModel

  // ---------------------------------------------------------------- where an event comes from

  /** The record received has this time, cookie and socket. */
  predicate Shows(a: Action, t: Time, cookie: U64, id: InetDiag.SockID) {
    && a.Receive? && InetDiag.Parses(RawOf(a.record))
    && a.record.timestamp == t && InetDiag.Cookie(RawOf(a.record)) == cookie != 0
    && InetDiag.GetSockID(RawOf(a.record)) == id
  }

  /** An opening has the time and the addresses of a record received; a close has a reading of the clock. */
  predicate IsTrue(env: Env, actions: seq<Action>, ticks: nat, e: FlowEvent) {
    match e
    case FlowCreated(t, cookie, id) => exists i :: 0 <= i < |actions| && Shows(actions[i], t, cookie, id)
    case FlowDeleted(t, _) => exists j :: 0 <= j < ticks && env.clock(j) == t
  }

  predicate AllTrue(env: Env, actions: seq<Action>, o: Output) {
    forall i :: 0 <= i < |o.events| ==> IsTrue(env, actions, o.ticks, o.events[i])
  }

  lemma StaysTrue(env: Env, actions: seq<Action>, a: Action, ticks: nat, more: nat, e: FlowEvent)
    requires IsTrue(env, actions, ticks, e) && ticks <= more
    ensures IsTrue(env, actions + [a], more, e)
  {
    if e.FlowCreated? {
      var i :| 0 <= i < |actions| && Shows(actions[i], e.timestamp, e.cookie, e.id);
      assert (actions + [a])[i] == actions[i];
    }
  }

  /** queue may announce one opening, of its own record. */
  lemma QueueAnnounces(env: Env, o: Output, msg: CachedRecord)
    ensures
      var o' := Queue(env, o, msg);
      && o'.ticks >= o.ticks
      && (o'.events == o.events ||
          (CookieOf(msg) != 0 && o'.events ==
             o.events + [FlowCreated(msg.timestamp, CookieOf(msg), InetDiag.GetSockID(RawOf(msg)))]))
  {
    QueueShape(env, o, msg);
  }

  lemma StepAnnounces(env: Env, actions: seq<Action>, s: State, a: Action)
    requires Enabled(s, a) && AllTrue(env, actions, s.core.out)
    ensures AllTrue(env, actions + [a], Step(env, s, a).core.out)
  {
    var o, o' := s.core.out, Step(env, s, a).core.out;
    StepOutput(env, s, a);
    if a.Receive? && InetDiag.Parses(RawOf(a.record)) {
      QueueAnnounces(env, o, a.record);
    }
    assert o'.ticks >= o.ticks;
    forall i | 0 <= i < |o'.events| ensures IsTrue(env, actions + [a], o'.ticks, o'.events[i]) {
      if i < |o.events| {
        StaysTrue(env, actions, a, o.ticks, o'.ticks, o.events[i]);
      } else if a.Receive? {
        assert (actions + [a])[|actions|] == a;
      } else {
        assert env.clock(o.ticks) == o'.events[i].timestamp;
      }
    }
  }

  /** In every run, every event tells the truth. */
  lemma {:induction false} EventsTellTheTruth(env: Env, actions: seq<Action>)
    requires IsRun(env, actions)
    ensures AllTrue(env, actions, After(env, actions).core.out)
  {
    if actions == [] {
    } else {
      var n := |actions| - 1;
      RunSplits(env, actions);
      EventsTellTheTruth(env, actions[..n]);
      StepAnnounces(env, actions[..n], After(env, actions[..n]), actions[n]);
      assert actions[..n] + [actions[n]] == actions;
    }
  }

  // ---------------------------------------------------------------- connections and their openings

  /** The last opening announced for a cookie. */
  function LastOpening(events: seq<FlowEvent>, cookie: U64): Option<FlowEvent> {
    if events == [] then None
    else
      var last := events[|events| - 1];
      if last.FlowCreated? && last.cookie == cookie then Some(last)
      else LastOpening(events[..|events| - 1], cookie)
  }

  lemma OpeningSnoc(events: seq<FlowEvent>, e: FlowEvent, cookie: U64)
    ensures LastOpening(events + [e], cookie) ==
      if e.FlowCreated? && e.cookie == cookie then Some(e) else LastOpening(events, cookie)
  {
    assert (events + [e])[..|events|] == events;
  }

  /** A connection has the start time and the socket that were announced. */
  predicate AsAnnounced(o: Output, c: U64)
    requires c in o.connections
  {
    var conn := o.connections[c];
    LastOpening(o.events, c) == Some(FlowCreated(conn.startTime, c, conn.id))
  }

  predicate AllAsAnnounced(o: Output) {
    forall c :: c in o.connections ==> AsAnnounced(o, c)
  }

  lemma EnsuredAsAnnounced(env: Env, o: Output, msg: CachedRecord)
    requires AllAsAnnounced(o)
    ensures AllAsAnnounced(Ensured(env, o, msg))
  {
    var o', cookie := Ensured(env, o, msg), CookieOf(msg);
    forall c | c in o'.connections ensures AsAnnounced(o', c) {
      if cookie !in o.connections {
        OpeningSnoc(o.events, FlowCreated(msg.timestamp, cookie, InetDiag.GetSockID(RawOf(msg))), c);
      }
      assert c in o.connections ==> AsAnnounced(o, c);
    }
  }

  /** Nothing is at stake when no connection is new and all keep start time and socket. */
  lemma SameAsAnnounced(o: Output, o': Output)
    requires AllAsAnnounced(o) && o'.events == o.events && o'.connections.Keys <= o.connections.Keys
    requires forall c :: c in o'.connections ==>
      o'.connections[c].startTime == o.connections[c].startTime && o'.connections[c].id == o.connections[c].id
    ensures AllAsAnnounced(o')
  {
    forall c | c in o'.connections ensures AsAnnounced(o', c) {
      assert AsAnnounced(o, c);
    }
  }

  lemma RetiredAsAnnounced(env: Env, o: Output, cookie: U64)
    requires AllAsAnnounced(o) && cookie in o.connections
    ensures AllAsAnnounced(Retired(env, o, cookie))
  {
    SameAsAnnounced(o, Retired(env, o, cookie));
  }

  lemma RotatedAsAnnounced(env: Env, o: Output, cookie: U64)
    requires AllAsAnnounced(o) && cookie in o.connections
    ensures AllAsAnnounced(Rotated(env, o, cookie))
  {
    SameAsAnnounced(o, Rotated(env, o, cookie));
  }

  lemma QueueAsAnnounced(env: Env, o: Output, msg: CachedRecord)
    requires AllAsAnnounced(o)
    ensures AllAsAnnounced(Queue(env, o, msg))
  {
    var cookie := CookieOf(msg);
    if cookie == 0 {
      SameAsAnnounced(o, Queue(env, o, msg));
    } else {
      var o1 := Ensured(env, o, msg);
      EnsuredAsAnnounced(env, o, msg);
      var o2 := Retired(env, o1, cookie);
      RetiredAsAnnounced(env, o1, cookie);
      var o3 := Rotated(env, o2, cookie);
      RotatedAsAnnounced(env, o2, cookie);
      SameAsAnnounced(o3, Delivered(env, o3, msg));
    }
  }

  lemma EndConnAsAnnounced(env: Env, o: Output, ended: U64)
    requires AllAsAnnounced(o)
    ensures AllAsAnnounced(EndConn(env, o, ended))
  {
    var o' := EndConn(env, o, ended);
    forall c | c in o'.connections ensures AsAnnounced(o', c) {
      OpeningSnoc(o.events, FlowDeleted(env.clock(o.ticks), ended), c);
      assert AsAnnounced(o, c);
    }
  }

  /** In every run, every connection has the start time and the socket of the last opening announced for its cookie. */
  lemma {:induction false} ConnectionsAsAnnounced(env: Env, actions: seq<Action>)
    requires IsRun(env, actions)
    ensures AllAsAnnounced(After(env, actions).core.out)
  {
    if actions == [] {
    } else {
      var n := |actions| - 1;
      RunSplits(env, actions);
      ConnectionsAsAnnounced(env, actions[..n]);
      var s, a := After(env, actions[..n]), actions[n];
      StepOutput(env, s, a);
      if a.Receive? && InetDiag.Parses(RawOf(a.record)) {
        QueueAsAnnounced(env, s.core.out, a.record);
      }
      if a.ExpireOne? || a.CloseOne? {
        EndConnAsAnnounced(env, s.core.out, a.cookie);
      }
    }
  }
}
