/** The saver object: the source's methods, updating its fields in place, proved to follow SaverModel. */
module SaverObject {
  import opened Bytes
  import InetDiag
  import opened Archival
  import opened Cache
  import opened SaverModel
  import opened Intake

  lemma AddAssociates(a: Stats, b: Stats, c: Stats)
    ensures Add(a, Add(b, c)) == Add(Add(a, b), c)
  {
    WrapAdd(b.sent + c.sent, a.sent);
    WrapAdd(a.sent + b.sent, c.sent);
    WrapAdd(b.received + c.received, a.received);
    WrapAdd(a.received + b.received, c.received);
  }

  lemma AddNothing(a: Stats)
    requires InRange64(a)
    ensures Add(a, NO_BYTES) == a
  {
  }

  lemma NothingCounted(s: State)
    requires InRange64(s.tally.live)
    ensures s.(tally := s.tally.(live := Add(s.tally.live, NO_BYTES))) == s
  {
    AddNothing(s.tally.live);
  }

  lemma TwoTypes(s: State, m: State, e: State, a: Stats, b: Stats)
    requires m == s.(core := m.core, tally := s.tally.(live := Add(s.tally.live, a)))
    requires e == m.(core := e.core, tally := m.tally.(live := Add(m.tally.live, b)))
    ensures e == s.(core := e.core, tally := s.tally.(live := Add(s.tally.live, Add(a, b))))
  {
    AddAssociates(s.tally.live, a, b);
  }

  predicate InRange64(s: Stats) {
    0 <= s.sent < TWO64 && 0 <= s.received < TWO64
  }

  predicate NoLive(t: Tally) {
    t.live.sent == 0 && t.live.received == 0
  }

  // ---------------------------------------------------------------- the object

  class Saver {
    const env: Env
    const isLocal: seq<Byte> -> bool
    const cache: Cache

    var connections: map<U64, Connection>
    var closingStats: map<U64, Stats>
    var closingTotals: Stats
    var counts: Counts

    // What has gone to files, channels and the event server, and how often the environment was asked.
    var files: seq<Metadata>
    var effects: seq<Effect>
    var events: seq<FlowEvent>
    var ticks: nat
    var attempts: nat

    ghost predicate Valid()
      reads this, cache
    {
      cache.Valid()
    }

    ghost function Out(): Output
      reads this
    {
      Output(connections, files, effects, events, ticks, attempts)
    }

    /** The fields as a state of the model. */
    ghost function Abs(): Core
      reads this, cache
    {
      Core(cache.Contents(), Closing(closingStats, closingTotals), Out(), counts)
    }

    constructor (env: Env, isLocal: seq<Byte> -> bool)
      ensures Valid() && Abs() == NEW_CORE && this.env == env && this.isLocal == isLocal
      ensures fresh(cache)
    {
      this.env, this.isLocal := env, isLocal;
      cache := new Cache();
      connections, closingStats, closingTotals := map[], map[], Stats(0, 0);
      counts := Counts(0, 0, 0, 0);
      files, effects, events, ticks, attempts := [], [], [], 0, 0;
    }

    /** time.Now */
    method Now() returns (now: Time)
      modifies this`ticks
      ensures now == env.clock(old(ticks)) && ticks == old(ticks) + 1
    {
      now := env.clock(ticks);
      ticks := ticks + 1;
    }

    /** Rotate, with writeHeader, for a connection that has no writer. */
    method Rotate(cookie: U64) returns (ok: bool)
      requires cookie in connections && connections[cookie].writer.None?
      modifies this`connections, this`files, this`effects, this`attempts
      ensures Out() == Rotated(env, old(Out()), cookie)
      ensures ok == connections[cookie].writer.Some?
    {
      ok := env.opens(attempts);
      attempts := attempts + 1;
      if !ok {
        return;
      }
      var conn := connections[cookie];
      var writer := |files|;
      effects := effects + [Opened(writer)];
      files := files + [Metadata(InetDiag.CookieUint64(conn.id), conn.sequence, conn.startTime)];
      conn := conn.(writer := Some(writer),
        expiration := conn.expiration + FILE_AGE_LIMIT, sequence := conn.sequence + 1);
      connections := connections[cookie := conn];
    }

    /** Looks up the connection of a record, and creates it for a first-time cookie. */
    method EnsureConnection(msg: CachedRecord)
      modifies this`connections, this`events, this`ticks
      ensures Out() == Ensured(env, old(Out()), msg)
    {
      var cookie := CookieOf(msg);
      if cookie !in connections {
        var id := InetDiag.GetSockID(RawOf(msg));
        var now := Now();
        connections := connections[cookie := Connection(id, msg.timestamp, 0, now, None, now)];
        events := events + [FlowCreated(msg.timestamp, cookie, id)];
      }
    }

    /** Closes the file of a connection when it has expired. */
    method RetireExpired(cookie: U64)
      requires cookie in connections
      modifies this`connections, this`effects, this`ticks
      ensures Out() == Retired(env, old(Out()), cookie)
    {
      var conn := connections[cookie];
      var now := Now();
      if now > conn.expiration && conn.writer.Some? {
        effects := effects + [CloseQueued(ChannelOf(env, cookie), conn.writer.value)];
        connections := connections[cookie := conn.(writer := None)];
      }
    }

    /** queue; ok is false where the source returns an error. */
    method QueueRecord(msg: CachedRecord) returns (ok: bool)
      modifies this`connections, this`files, this`effects, this`events, this`ticks, this`attempts
      ensures Out() == Queue(env, old(Out()), msg)
      ensures ok <==> |effects| > 0 && effects[|effects| - 1].Queued?
    {
      var cookie := CookieOf(msg);
      if cookie == 0 {
        effects := effects + [Dropped(msg)];
        return false;
      }
      EnsureConnection(msg);
      RetireExpired(cookie);
      if connections[cookie].writer.None? {
        var rotated := Rotate(cookie);
        if !rotated {
          effects := effects + [Dropped(msg)];
          return false;
        }
      }
      effects := effects + [Queued(ChannelOf(env, cookie), connections[cookie].writer.value, msg)];
      return true;
    }

    method EndConnection(cookie: U64)
      modifies this`connections, this`effects, this`events, this`ticks
      ensures Out() == EndConn(env, old(Out()), cookie)
    {
      var now := Now();
      events := events + [FlowDeleted(now, cookie)];
      if cookie in connections && connections[cookie].writer.Some? {
        effects := effects + [CloseQueued(ChannelOf(env, cookie), connections[cookie].writer.value)];
        connections := connections - {cookie};
      }
    }

    /** Keeps the last counters of a connection that stops carrying DiagInfo. */
    method NoteClosingStats(pm: CachedRecord, evicted: CachedRecord)
      modifies this`closingStats, this`closingTotals
      ensures Closing(closingStats, closingTotals) ==
        NoteClosing(Closing(old(closingStats), old(closingTotals)), CookieOf(pm), pm, evicted)
    {
      if !HasDiagInfo(pm) {
        if HasDiagInfo(evicted) {
          closingStats := closingStats[CookieOf(pm) := GetStats(evicted)];
          closingTotals := Add(closingTotals, GetStats(evicted));
        }
      }
    }

    /** Queues a record that differs from the one it replaced. */
    method QueueIfChanged(pm: CachedRecord, evicted: CachedRecord)
      modifies this`connections, this`files, this`effects, this`events, this`ticks, this`attempts, this`counts
      ensures Unchanged(pm, evicted) ==> Out() == old(Out()) && counts == old(counts)
      ensures !Unchanged(pm, evicted) ==>
        Out() == Queue(env, old(Out()), pm) && counts == old(counts).(diff := old(counts).diff + 1)
    {
      var change := Compare(pm, Some(evicted));
      if change != Change(NoMajorChange) {
        counts := counts.(diff := counts.diff + 1);
        var ok := QueueRecord(pm);
      }
    }

    method SwapAndQueueRecord(pm: ArchivalRecord)
      requires Valid() && InfoLongEnough(pm)
      modifies this, cache
      ensures Valid() && Abs() == SwapAndQueue(env, old(Abs()), pm)
    {
      var evicted, found := UpdateCache(pm);
      if !found {
        return;
      }
      if evicted.None? {
        QueueNew(pm, old(Abs()));
      } else {
        QueueAgain(pm, evicted.value, old(Abs()));
      }
    }

    /** Counts a record, and swaps it with the one in the cache. */
    method UpdateCache(pm: ArchivalRecord) returns (evicted: Option<CachedRecord>, found: bool)
      requires Valid() && InfoLongEnough(pm)
      modifies this`counts, cache
      ensures Valid() && counts == old(counts).(total := old(counts).total + 1)
      ensures found == InetDiag.Parses(RawOf(pm))
      ensures !found ==> cache.Contents() == old(cache.Contents())
      ensures found ==>
        && cache.Contents() == Updated(old(cache.Contents()), pm)
        && evicted == Evicted(old(cache.Contents()), CookieOf(pm))
    {
      counts := counts.(total := counts.total + 1);
      evicted, found := cache.Update(pm);
    }

    /** Since before, the record has been counted and put into the cache. */
    ghost predicate Swapped(pm: CachedRecord, before: Core)
      reads this, cache
    {
      Abs() == before.(cache := Updated(before.cache, pm), counts := before.counts.(total := before.counts.total + 1))
    }

    /** Queues the first record of a cookie. */
    method QueueNew(pm: CachedRecord, ghost before: Core)
      requires Swapped(pm, before) && Evicted(before.cache, CookieOf(pm)).None?
      modifies this`connections, this`files, this`effects, this`events, this`ticks, this`attempts, this`counts
      ensures Abs() == SwapAndQueue(env, before, pm)
    {
      counts := counts.(arrived := counts.arrived + 1);
      var ok := QueueRecord(pm);
    }

    /** What is done with a record that replaced another one. */
    method QueueAgain(pm: CachedRecord, evicted: CachedRecord, ghost before: Core)
      requires Swapped(pm, before) && Evicted(before.cache, CookieOf(pm)) == Some(evicted)
      modifies this`connections, this`files, this`effects, this`events, this`ticks, this`attempts, this`counts
      modifies this`closingStats, this`closingTotals
      ensures Abs() == SwapAndQueue(env, before, pm)
    {
      NoteClosingStats(pm, evicted);
      QueueIfChanged(pm, evicted);
    }

    /** Since state s, records have been handled in which there were these bytes. */
    ghost predicate Counted(s: State, live: Stats, s': State)
      reads this, cache
    {
      s' == s.(core := Abs(), tally := s.tally.(live := Add(s.tally.live, live)))
    }

    /** The sums that handleType starts from. */
    method NoneCounted(ghost s: State) returns (live: Stats)
      requires InRange64(s.tally.live) && s.core == Abs()
      ensures Counted(s, live, s) && live.sent == 0 && live.received == 0
    {
      live := NO_BYTES;
      NothingCounted(s);
    }

    /** One round of handleType, which began in state s. */
    method HandleMessage(t: Time, msg: Option<NetlinkMessage>, live: Stats, ghost s: State, ghost before: seq<Action>)
      returns (live': Stats, ghost after: seq<Action>)
      requires Valid() && InDomain(isLocal, msg) && s.phase.Receiving?
      requires IsRun(env, before)
      requires Counted(s, live, After(env, before))
      modifies this, cache
      ensures Valid() && IsRun(env, after) && Counted(s, live', After(env, after))
      ensures Arrivals(after) == Arrivals(before) + Arrived(|BlockTimes(before)|, RecordFrom(isLocal, t, msg))
      ensures BlockTimes(after) == BlockTimes(before)
    {
      live', after := live, before;
      assert Arrivals(before) + [] == Arrivals(before);
      if msg.None? {
        return;
      }
      var made := MakeArchivalRecord(isLocal, msg.value, true);
      if !made.Made? {
        return;
      }
      var ar := made.record.(timestamp := t);
      AddAssociates(s.tally.live, live, GetStats(ar));
      RunExtends(env, before, Receive(ar));
      ActionSnoc(before, Receive(ar));
      live' := Add(live, GetStats(ar));
      SwapAndQueueRecord(ar);
      after := before + [Receive(ar)];
    }

    /** handleType: returns the bytes of all records in the messages. */
    method HandleType(t: Time, msgs: seq<Option<NetlinkMessage>>, ghost before: seq<Action>)
      returns (live: Stats, ghost after: seq<Action>)
      requires Valid()
      requires forall i :: 0 <= i < |msgs| ==> InDomain(isLocal, msgs[i])
      requires IsRun(env, before) && After(env, before).phase.Receiving? && After(env, before).core == Abs()
      requires InRange64(After(env, before).tally.live)
      modifies this, cache
      ensures Valid() && IsRun(env, after)
      ensures
        var s := After(env, before);
        After(env, after) == s.(core := Abs(), tally := s.tally.(live := Add(s.tally.live, live)))
      ensures Arrivals(after) == Arrivals(before) + RecordsFrom(isLocal, |BlockTimes(before)|, t, msgs)
      ensures BlockTimes(after) == BlockTimes(before)
    {
      ghost var s := After(env, before);
      live := NoneCounted(s);
      after := before;
      assert Arrivals(after) + [] == Arrivals(after);
      for i := 0 to |msgs|
        invariant Valid() && IsRun(env, after) && Counted(s, live, After(env, after))
        invariant Came(isLocal, t, msgs[..i], before, after)
      {
        ghost var until := after;
        live, after := HandleMessage(t, msgs[i], live, s, after);
        CameNext(isLocal, t, msgs, i, before, until, after);
      }
      assert msgs[..|msgs|] == msgs;
    }

    /** The residual loop; map iteration is in any order. Returns the new value of closed. */
    method ExpireResidual(residual: Generation, closed: Stats, ghost before: seq<Action>)
      returns (closed': Stats, ghost after: seq<Action>)
      requires Valid()
      requires IsRun(env, before) && After(env, before).phase.Expiring? && After(env, before).core == Abs()
      requires After(env, before).residual == residual && After(env, before).tally.closed == closed
      modifies this
      ensures Valid() && IsRun(env, after)
      ensures
        var s := After(env, before);
        After(env, after) == s.(core := Abs(), residual := map[], tally := s.tally.(closed := closed'))
      ensures Arrivals(after) == Arrivals(before) && BlockTimes(after) == BlockTimes(before)
    {
      ghost var s := After(env, before);
      closed', after := closed, before;
      var rest: Generation := residual;
      while rest != map[]
        invariant Valid() && IsRun(env, after)
        invariant After(env, after) == s.(core := Abs(), residual := rest, tally := s.tally.(closed := closed'))
        invariant Arrivals(after) == Arrivals(before) && BlockTimes(after) == BlockTimes(before)
        decreases |rest|
      {
        var cookie: U64 :| cookie in rest;
        QuietStep(env, after, ExpireOne(cookie));
        after := after + [ExpireOne(cookie)];
        closed' := ExpireCookie(cookie, rest[cookie], closed');
        rest := rest - {cookie};
      }
    }

    /** One round of the residual loop. */
    method ExpireCookie(cookie: U64, ar: CachedRecord, closed: Stats) returns (closed': Stats)
      requires Valid()
      modifies this
      ensures Valid()
      ensures closed' == Add(closed, FinalStats(old(Abs()).closing, cookie, ar))
      ensures Abs() == old(Abs()).(
        closing := DropClosing(old(Abs()).closing, cookie, ar),
        out := EndConn(env, old(Abs()).out, cookie),
        counts := old(counts).(expired := old(counts).expired + 1))
    {
      var stats := Stats(0, 0);
      if !HasDiagInfo(ar) {
        if cookie in closingStats {
          stats := closingStats[cookie];
          closingTotals := Subtract(closingTotals, stats);
          closingStats := closingStats - {cookie};
        }
      } else {
        stats := GetStats(ar);
      }
      closed' := Add(closed, stats);
      EndConnection(cookie);
      counts := counts.(expired := counts.expired + 1);
    }

    /** The v4 and then the v6 messages of a block. */
    method ReceiveBlock(b: MessageBlock, ghost before: seq<Action>) returns (live: Stats, ghost after: seq<Action>)
      requires Valid() && BlockInDomain(isLocal, b)
      requires IsRun(env, before) && After(env, before).phase.Receiving? && After(env, before).core == Abs()
      requires InRange64(After(env, before).tally.live)
      modifies this, cache
      ensures Valid() && IsRun(env, after)
      ensures
        var s := After(env, before);
        After(env, after) == s.(core := Abs(), tally := s.tally.(live := Add(s.tally.live, live)))
      ensures Arrivals(after) == Arrivals(before) + RecordsInBlock(isLocal, |BlockTimes(before)|, b)
      ensures BlockTimes(after) == BlockTimes(before)
    {
      var live4, live6;
      ghost var between;
      live4, between := HandleType(b.v4Time, b.v4, before);
      live6, after := HandleType(b.v6Time, b.v6, between);
      live := Add(live4, live6);
      TwoTypes(After(env, before), After(env, between), After(env, after), live4, live6);
      ghost var k := |BlockTimes(before)|;
      AppendAssociates(
        Arrivals(before), RecordsFrom(isLocal, k, b.v4Time, b.v4), RecordsFrom(isLocal, k, b.v6Time, b.v6));
    }

    /** EndCycle and the residual loop. */
    method FinishCycle(closed: Stats, ghost before: seq<Action>) returns (closed': Stats, ghost after: seq<Action>)
      requires Valid()
      requires IsRun(env, before) && After(env, before).phase.Receiving? && After(env, before).core == Abs()
      requires After(env, before).tally.closed == closed
      modifies this, cache
      ensures Valid() && IsRun(env, after) && cache.current == map[]
      ensures
        var s := After(env, before);
        After(env, after) == State(Abs(), map[], s.tally.(closed := closed'), Expiring)
      ensures Arrivals(after) == Arrivals(before) && BlockTimes(after) == BlockTimes(before)
    {
      QuietStep(env, before, EndCycle);
      after := before + [EndCycle];
      var residual := cache.EndCycle();
      closed', after := ExpireResidual(residual, closed, after);
    }

    /** One round of the loop over the reader channel. */
    method HandleBlock(b: MessageBlock, tally: Tally, ghost before: seq<Action>)
      returns (tally': Tally, ghost after: seq<Action>)
      requires Valid() && BlockInDomain(isLocal, b)
      requires IsRun(env, before) && After(env, before) == State(Abs(), map[], tally, Receiving)
      requires NoLive(tally) && cache.current == map[]
      modifies this, cache
      ensures Valid() && IsRun(env, after)
      ensures After(env, after) == State(Abs(), map[], tally', Receiving)
      ensures NoLive(tally') && cache.current == map[]
      ensures Arrivals(after) == Arrivals(before) + RecordsInBlock(isLocal, |BlockTimes(before)|, b)
      ensures BlockTimes(after) == BlockTimes(before) + [b.v4Time]
      ensures exists origins, arrivals ::
        && ComeFrom(isLocal, [b], origins, arrivals)
        && Arrivals(after) == Arrivals(before) + InBlock(|BlockTimes(before)|, arrivals)
    {
      var live, closed;
      live, after := ReceiveBlock(b, before);
      closed, after := FinishCycle(tally.closed, after);
      tally' := ReportRates(tally.(closed := closed, live := Add(tally.live, live)), b.v4Time);
      RunExtends(env, after, EndBlock(b.v4Time));
      ActionSnoc(after, EndBlock(b.v4Time));
      after := after + [EndBlock(b.v4Time)];
      tally' := tally'.(live := NO_BYTES);
      ghost var origins := OneBlockComes(isLocal, |BlockTimes(before)|, b);
    }

    /** The report of the bytes since the last one, once per second. */
    method ReportRates(tally: Tally, v4Time: Time) returns (tally': Tally)
      requires Valid()
      ensures tally' == Report(State(Abs(), map[], tally, Expiring), v4Time).tally
    {
      tally' := tally;
      if Unix(v4Time) > tally.lastReport {
        var total := WrapBoth(Plus(Plus(tally.closed, closingTotals), tally.live));
        if !(total.sent > Wrap(MAX_INCREMENT + tally.reported.sent) || total.sent < tally.reported.sent) {
          tally' := tally'.(
            sentBits := tally.sentBits + [8 * (total.sent - tally.reported.sent)],
            reported := tally'.reported.(sent := total.sent));
        }
        if !(total.received > Wrap(MAX_INCREMENT + tally.reported.received)
             || total.received < tally.reported.received) {
          tally' := tally'.(
            receivedBits := tally.receivedBits + [8 * (total.received - tally.reported.received)],
            reported := tally'.reported.(received := total.received));
        }
        tally' := tally'.(lastReport := Unix(v4Time));
      }
    }

    /** Close: ends all connections, in any order. */
    method CloseAll(ghost before: seq<Action>) returns (ghost after: seq<Action>)
      requires Valid() && cache.current == map[]
      requires IsRun(env, before) && After(env, before).phase.Receiving? && After(env, before).core == Abs()
      modifies this
      ensures Valid() && IsRun(env, after)
      ensures After(env, after) == After(env, before).(core := Abs(), phase := Stopped)
      ensures Arrivals(after) == Arrivals(before) && BlockTimes(after) == BlockTimes(before)
    {
      ghost var s := After(env, before);
      QuietStep(env, before, Close);
      after := before + [Close];
      var todo := connections.Keys;
      while todo != {}
        invariant Valid() && IsRun(env, after)
        invariant After(env, after) == s.(core := Abs(), phase := Shutting(todo))
        invariant Arrivals(after) == Arrivals(before) && BlockTimes(after) == BlockTimes(before)
        decreases |todo|
      {
        var cookie: U64 :| cookie in todo;
        QuietStep(env, after, CloseOne(cookie));
        after := after + [CloseOne(cookie)];
        EndConnection(cookie);
        todo := todo - {cookie};
      }
      QuietStep(env, after, Stop);
      after := after + [Stop];
    }

    /**
      Handles blocks until the reader channel is closed. What the object has done is a run of the model, over
      exactly the records in the blocks, that has come to its end; so all that holds of every run holds of it.
     */
    method MessageSaverLoop(blocks: seq<MessageBlock>) returns (tally: Tally, ghost actions: seq<Action>)
      requires Valid() && Abs() == NEW_CORE
      requires forall i :: 0 <= i < |blocks| ==> BlockInDomain(isLocal, blocks[i])
      modifies this, cache
      ensures Valid() && IsRun(env, actions)
      ensures After(env, actions) == State(Abs(), map[], tally, Stopped)
      ensures exists origins :: ComeFrom(isLocal, blocks, origins, Arrivals(actions))
      ensures |BlockTimes(actions)| == |blocks|
      ensures forall k :: 0 <= k < |blocks| ==> BlockTimes(actions)[k] == blocks[k].v4Time
    {
      tally, actions := NEW_TALLY, [];
      for i := 0 to |blocks|
        invariant Valid() && IsRun(env, actions)
        invariant After(env, actions) == State(Abs(), map[], tally, Receiving)
        invariant NoLive(tally) && cache.current == map[]
        invariant Arrivals(actions) == RecordsInBlocks(isLocal, blocks[..i])
        invariant BlockTimes(actions) == TimesOf(blocks[..i])
      {
        tally, actions := HandleBlock(blocks[i], tally, actions);
        assert blocks[..i + 1][..i] == blocks[..i];
        TimesSnoc(blocks, i);
      }
      assert blocks[..|blocks|] == blocks;
      actions := CloseAll(actions);
      ghost var origins := BlocksCome(isLocal, blocks);
      assert ComeFrom(isLocal, blocks, origins, Arrivals(actions));
    }
  }

}
