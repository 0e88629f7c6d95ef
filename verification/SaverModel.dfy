/**
  The saver as a state machine.

  Every call of the source's saver goroutine that does something is one action, so that a run is any
  sequence of enabled actions. The functions here say what each call leaves behind; SaverObject.Saver is
  the object that does it in place.
 */
module SaverModel {
  import opened Bytes
  import InetDiag
  import opened Archival
  import opened Cache

  /** 10 minutes. */
  const FILE_AGE_LIMIT: Time := 600_000_000_000

  const SECOND: Time := 1_000_000_000

  /** 10 * maxSwitchSpeed / 8 bytes: the largest increment that is still reported. */
  const MAX_INCREMENT := 12_500_000_000

  /** time.Time{}.Unix() */
  const NEVER := -62_135_596_800

  type Positive = n: int | n >= 1 witness 1

  /**
    What the environment decides: the number of marshallers, the successive readings of the clock, and
    which of the successive attempts to open a file succeed.
   */
  datatype Env = Env(channels: Positive, clock: nat -> Time, opens: nat -> bool)

  /** created is the time the connection was first seen, the first value of its expiration. */
  datatype Connection = Connection(
    id: InetDiag.SockID,
    startTime: Time,
    sequence: nat,
    expiration: Time,
    writer: Option<nat>,
    created: Time)

  /**
    What the saver does to files, in order. A writer is named by its index in the list of files opened.
    Dropped is a record that queue was given and returned an error for.
   */
  datatype Effect =
    | Opened(writer: nat)
    | Queued(channel: nat, writer: nat, message: CachedRecord)
    | CloseQueued(channel: nat, writer: nat)
    | Dropped(message: CachedRecord)

  datatype FlowEvent =
    | FlowCreated(timestamp: Time, cookie: U64, id: InetDiag.SockID)
    | FlowDeleted(timestamp: Time, cookie: U64)

  /** Connections, and what has been written, sent and read so far. files holds the header of each file. */
  datatype Output = Output(
    connections: map<U64, Connection>,
    files: seq<Metadata>,
    effects: seq<Effect>,
    events: seq<FlowEvent>,
    ticks: nat,
    attempts: nat)

  const NO_OUTPUT := Output(map[], [], [], [], 0, 0)

  /** ClosingStats and ClosingTotals. */
  datatype Closing = Closing(stats: map<U64, Stats>, totals: Stats)

  datatype Counts = Counts(total: nat, arrived: nat, diff: nat, expired: nat)

  /** The fields of Saver. */
  datatype Core = Core(cache: Generations, closing: Closing, out: Output, counts: Counts)

  const NEW_CORE := Core(EMPTY_CACHE, Closing(map[], NO_BYTES), NO_OUTPUT, Counts(0, 0, 0, 0))

  function Plus(a: Stats, b: Stats): Stats {
    Stats(a.sent + b.sent, a.received + b.received)
  }

  /** Both halves as uint64. */
  function WrapBoth(a: Stats): (r: Stats)
    ensures 0 <= r.sent < TWO64 && 0 <= r.received < TWO64
  {
    Stats(Wrap(a.sent), Wrap(a.received))
  }

  function Add(a: Stats, b: Stats): Stats {
    WrapBoth(Plus(a, b))
  }

  function Subtract(a: Stats, b: Stats): Stats {
    WrapBoth(Stats(a.sent - b.sent, a.received - b.received))
  }

  // ---------------------------------------------------------------- files and connections

  function ChannelOf(env: Env, cookie: U64): (r: nat)
    ensures r < env.channels
  {
    cookie % env.channels
  }

  /** queue: a connection for a first-time cookie. */
  function Ensured(env: Env, o: Output, msg: CachedRecord): (r: Output)
    ensures CookieOf(msg) in r.connections
  {
    var cookie := CookieOf(msg);
    if cookie in o.connections then o
    else
      var now := env.clock(o.ticks);
      var id := InetDiag.GetSockID(RawOf(msg));
      o.(connections := o.connections[cookie := Connection(id, msg.timestamp, 0, now, None, now)],
         events := o.events + [FlowCreated(msg.timestamp, cookie, id)],
         ticks := o.ticks + 1)
  }

  /** queue: an expired file is closed. */
  function Retired(env: Env, o: Output, cookie: U64): (r: Output)
    requires cookie in o.connections
    ensures cookie in r.connections
  {
    var conn := o.connections[cookie];
    if env.clock(o.ticks) > conn.expiration && conn.writer.Some? then
      o.(connections := o.connections[cookie := conn.(writer := None)],
         effects := o.effects + [CloseQueued(ChannelOf(env, cookie), conn.writer.value)],
         ticks := o.ticks + 1)
    else o.(ticks := o.ticks + 1)
  }

  /** queue: Rotate, for a connection without a writer. */
  function Rotated(env: Env, o: Output, cookie: U64): (r: Output)
    requires cookie in o.connections
    ensures cookie in r.connections
  {
    var conn := o.connections[cookie];
    if conn.writer.Some? then o
    else if !env.opens(o.attempts) then o.(attempts := o.attempts + 1)
    else
      var writer := |o.files|;
      o.(connections := o.connections[cookie := conn.(
           writer := Some(writer), expiration := conn.expiration + FILE_AGE_LIMIT, sequence := conn.sequence + 1)],
         files := o.files + [Metadata(InetDiag.CookieUint64(conn.id), conn.sequence, conn.startTime)],
         effects := o.effects + [Opened(writer)],
         attempts := o.attempts + 1)
  }

  /** queue: the record goes to the connection's file, if there is one. */
  function Delivered(env: Env, o: Output, msg: CachedRecord): Output
    requires CookieOf(msg) in o.connections
  {
    var cookie := CookieOf(msg);
    match o.connections[cookie].writer
    case None => o.(effects := o.effects + [Dropped(msg)])
    case Some(w) => o.(effects := o.effects + [Queued(ChannelOf(env, cookie), w, msg)])
  }

  function Queue(env: Env, o: Output, msg: CachedRecord): Output {
    var cookie := CookieOf(msg);
    if cookie == 0 then o.(effects := o.effects + [Dropped(msg)])
    else Delivered(env, Rotated(env, Retired(env, Ensured(env, o, msg), cookie), cookie), msg)
  }

  function EndConn(env: Env, o: Output, cookie: U64): Output {
    var o' := o.(events := o.events + [FlowDeleted(env.clock(o.ticks), cookie)], ticks := o.ticks + 1);
    if cookie in o.connections && o.connections[cookie].writer.Some? then
      o'.(effects := o.effects + [CloseQueued(ChannelOf(env, cookie), o.connections[cookie].writer.value)],
          connections := o.connections - {cookie})
    else o'
  }

  // ---------------------------------------------------------------- records

  /** swapAndQueue: the last counters of a connection that stops carrying DiagInfo. */
  function NoteClosing(c: Closing, cookie: U64, pm: CachedRecord, evicted: CachedRecord): Closing {
    if !HasDiagInfo(pm) && HasDiagInfo(evicted) then
      Closing(c.stats[cookie := GetStats(evicted)], Add(c.totals, GetStats(evicted)))
    else c
  }

  function SwapAndQueue(env: Env, s: Core, pm: ArchivalRecord): Core
    requires InfoLongEnough(pm)
  {
    var counts := s.counts.(total := s.counts.total + 1);
    if !InetDiag.Parses(RawOf(pm)) then s.(counts := counts)
    else
      var cookie := CookieOf(pm);
      var cache := Updated(s.cache, pm);
      match Evicted(s.cache, cookie)
      case None =>
        Core(cache, s.closing, Queue(env, s.out, pm), counts.(arrived := counts.arrived + 1))
      case Some(evicted) =>
        var closing := NoteClosing(s.closing, cookie, pm, evicted);
        if Unchanged(pm, evicted) then Core(cache, closing, s.out, counts)
        else Core(cache, closing, Queue(env, s.out, pm), counts.(diff := counts.diff + 1))
  }

  // ---------------------------------------------------------------- the loop

  /** The locals of MessageSaverLoop, and the values it has observed in the two rate histograms. */
  datatype Tally = Tally(
    closed: Stats, live: Stats, reported: Stats, lastReport: int, sentBits: seq<int>, receivedBits: seq<int>)

  const NEW_TALLY := Tally(NO_BYTES, NO_BYTES, NO_BYTES, NEVER, [], [])

  /**
    Receiving: a block of messages is being handled, or is awaited. Expiring: the residual loop.
    Shutting: the loop of Close, with the connections it has still to visit.
   */
  datatype Phase = Receiving | Expiring | Shutting(todo: set<U64>) | Stopped

  datatype State = State(core: Core, residual: Generation, tally: Tally, phase: Phase)

  const INITIAL_STATE := State(NEW_CORE, map[], NEW_TALLY, Receiving)

  /** The stats that the residual loop adds to closed for an expired record. */
  function FinalStats(c: Closing, cookie: U64, r: CachedRecord): Stats {
    if HasDiagInfo(r) then GetStats(r)
    else if cookie in c.stats then c.stats[cookie]
    else NO_BYTES
  }

  function DropClosing(c: Closing, cookie: U64, r: CachedRecord): Closing {
    if !HasDiagInfo(r) && cookie in c.stats then
      Closing(c.stats - {cookie}, Subtract(c.totals, c.stats[cookie]))
    else c
  }

  function Expire(env: Env, s: State, cookie: U64): State
    requires cookie in s.residual
  {
    var r := s.residual[cookie];
    s.(core := s.core.(
         closing := DropClosing(s.core.closing, cookie, r),
         out := EndConn(env, s.core.out, cookie),
         counts := s.core.counts.(expired := s.core.counts.expired + 1)),
       residual := s.residual - {cookie},
       tally := s.tally.(closed := Add(s.tally.closed, FinalStats(s.core.closing, cookie, r))))
  }

  /** totalSent and totalReceived. */
  function Totals(s: State): Stats {
    WrapBoth(Plus(Plus(s.tally.closed, s.core.closing.totals), s.tally.live))
  }

  /** The observation made for one counter, if any. The threshold is a uint64 addition. */
  function Observation(total: int, reported: int): Option<int> {
    if total > Wrap(MAX_INCREMENT + reported) || total < reported then None else Some(8 * (total - reported))
  }

  function Observed(bits: seq<int>, o: Option<int>): seq<int> {
    match o
    case None => bits
    case Some(x) => bits + [x]
  }

  function Unix(t: Time): int {
    t / SECOND
  }

  function Report(s: State, v4Time: Time): State {
    var t := s.tally;
    if Unix(v4Time) <= t.lastReport then s
    else
      var total := Totals(s);
      var sent := Observation(total.sent, t.reported.sent);
      var received := Observation(total.received, t.reported.received);
      s.(tally := t.(
        reported := Stats(if sent.Some? then total.sent else t.reported.sent,
                          if received.Some? then total.received else t.reported.received),
        lastReport := Unix(v4Time),
        sentBits := Observed(t.sentBits, sent),
        receivedBits := Observed(t.receivedBits, received)))
  }

  // ---------------------------------------------------------------- actions

  datatype Place = InCurrent | InPrevious | InResidual

  /**
    Scrub is a marshaller's doing: it anonymizes a record in place while the cache still refers to it.
    All other actions are the saver's own, in program order.
   */
  datatype Action =
    | Receive(record: ArchivalRecord)
    | EndCycle
    | ExpireOne(cookie: U64)
    | EndBlock(v4Time: Time)
    | Close
    | CloseOne(cookie: U64)
    | Stop
    | Scrub(place: Place, scrubbed: U64, rewritten: CachedRecord)

  function GenerationAt(s: State, place: Place): Generation {
    match place
    case InCurrent => s.core.cache.current
    case InPrevious => s.core.cache.previous
    case InResidual => s.residual
  }

  predicate Enabled(s: State, a: Action) {
    match a
    case Receive(record) => s.phase.Receiving? && InfoLongEnough(record)
    case EndCycle => s.phase.Receiving?
    case ExpireOne(cookie) => s.phase.Expiring? && cookie in s.residual
    case EndBlock(_) => s.phase.Expiring? && s.residual == map[]
    case Close => s.phase.Receiving? && s.core.cache.current == map[]
    case CloseOne(cookie) => s.phase.Shutting? && cookie in s.phase.todo
    case Stop => s.phase == Shutting({})
    case Scrub(place, cookie, r) =>
      cookie in GenerationAt(s, place) && SameButAddresses(GenerationAt(s, place)[cookie], r)
  }

  function Scrubbed(s: State, place: Place, cookie: U64, r: CachedRecord): State {
    match place
    case InCurrent => s.(core := s.core.(cache := s.core.cache.(current := s.core.cache.current[cookie := r])))
    case InPrevious => s.(core := s.core.(cache := s.core.cache.(previous := s.core.cache.previous[cookie := r])))
    case InResidual => s.(residual := s.residual[cookie := r])
  }

  function Step(env: Env, s: State, a: Action): State
    requires Enabled(s, a)
  {
    match a
    case Receive(record) =>
      s.(core := SwapAndQueue(env, s.core, record), tally := s.tally.(live := Add(s.tally.live, GetStats(record))))
    case EndCycle =>
      s.(core := s.core.(cache := Generations(map[], s.core.cache.current)),
         residual := s.core.cache.previous, phase := Expiring)
    case ExpireOne(cookie) => Expire(env, s, cookie)
    case EndBlock(v4Time) =>
      var s' := Report(s, v4Time);
      s'.(tally := s'.tally.(live := NO_BYTES), phase := Receiving)
    case Close => s.(phase := Shutting(s.core.out.connections.Keys))
    case CloseOne(cookie) =>
      s.(core := s.core.(out := EndConn(env, s.core.out, cookie)), phase := Shutting(s.phase.todo - {cookie}))
    case Stop => s.(phase := Stopped)
    case Scrub(place, cookie, r) => Scrubbed(s, place, cookie, r)
  }

  /** The state after a list of actions; None if one of them was not enabled. */
  function Exec(env: Env, actions: seq<Action>): Option<State> {
    if actions == [] then Some(INITIAL_STATE)
    else
      var n := |actions| - 1;
      match Exec(env, actions[..n])
      case None => None
      case Some(s) => if Enabled(s, actions[n]) then Some(Step(env, s, actions[n])) else None
  }

  predicate IsRun(env: Env, actions: seq<Action>) {
    Exec(env, actions).Some?
  }

  function After(env: Env, actions: seq<Action>): State
    requires IsRun(env, actions)
  {
    Exec(env, actions).value
  }

  /** A run is the run without its last action, and a step. */
  lemma RunSplits(env: Env, actions: seq<Action>)
    requires IsRun(env, actions) && actions != []
    ensures
      var n := |actions| - 1;
      && IsRun(env, actions[..n])
      && Enabled(After(env, actions[..n]), actions[n])
      && After(env, actions) == Step(env, After(env, actions[..n]), actions[n])
  {
  }

  lemma RunExtends(env: Env, actions: seq<Action>, a: Action)
    requires IsRun(env, actions) && Enabled(After(env, actions), a)
    ensures IsRun(env, actions + [a])
    ensures After(env, actions + [a]) == Step(env, After(env, actions), a)
  {
    assert (actions + [a])[..|actions|] == actions;
  }

  /** queue adds a connection for its cookie, with an event, when there is none; the rest of it does neither. */
  lemma QueueShape(env: Env, o: Output, msg: CachedRecord)
    ensures
      var o' := Queue(env, o, msg);
      var cookie := CookieOf(msg);
      && o'.connections.Keys == (if cookie == 0 then o.connections.Keys else o.connections.Keys + {cookie})
      && o'.events == (if cookie == 0 then o.events else Ensured(env, o, msg).events)
      && forall c :: c in o.connections && c != cookie ==> o'.connections[c] == o.connections[c]
  {
    var cookie := CookieOf(msg);
    if cookie != 0 {
      var o1 := Ensured(env, o, msg);
      var o2 := Retired(env, o1, cookie);
      assert o2.connections.Keys == o1.connections.Keys && o2.events == o1.events;
      assert forall c :: c in o.connections && c != cookie ==> o2.connections[c] == o.connections[c];
      var o3 := Rotated(env, o2, cookie);
      assert o3.connections.Keys == o2.connections.Keys && o3.events == o2.events;
      assert forall c :: c in o.connections && c != cookie ==> o3.connections[c] == o2.connections[c];
    }
  }

  /** What Receive does to the cache and the output. */
  lemma ReceiveParts(env: Env, s: State, r: ArchivalRecord)
    requires Enabled(s, Receive(r)) && InetDiag.Parses(RawOf(r))
    ensures
      var s' := Step(env, s, Receive(r));
      && s'.core.cache == Updated(s.core.cache, r)
      && s'.residual == s.residual && s'.phase == s.phase
      && s'.core.out ==
           if CookieOf(r) in s.core.cache.previous && Unchanged(r, s.core.cache.previous[CookieOf(r)]) then s.core.out
           else Queue(env, s.core.out, r)
  {
  }

  /** The connections and the output change only through queue and endConn. */
  lemma StepOutput(env: Env, s: State, a: Action)
    requires Enabled(s, a)
    ensures
      var o, o' := s.core.out, Step(env, s, a).core.out;
      || o' == o
      || (a.Receive? && InetDiag.Parses(RawOf(a.record)) && o' == Queue(env, o, a.record))
      || (a.ExpireOne? && o' == EndConn(env, o, a.cookie))
      || (a.CloseOne? && o' == EndConn(env, o, a.cookie))
  {
  }
}
