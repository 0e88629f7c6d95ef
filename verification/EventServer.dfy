/**
  The event server: a queue of flow events, a set of clients under a mutex, a notifier that broadcasts, and
  removals of failed clients that wait for the mutex.
 */
module EventServer {
  import opened Bytes
  import SaverModel

  type FlowEvent = SaverModel.FlowEvent

  type Client = nat

  /** Capacity of the event channel. */
  const CAPACITY := 100

  /** sendToAllListeners holding the mutex: the event, the clients at the start, and those not yet written to. */
  datatype Broadcast = Broadcast(event: FlowEvent, members: set<Client>, todo: set<Client>)

  /**
    inHand is an event that the notifier has taken and serialized but not yet got the mutex for.
    The fields from emitted on are history: events ever sent to the channel, taken from it and broadcast; for each
    client that ever joined, the number of broadcasts before it, the lines it got, the index of the broadcast in which a
    write to it first failed, and the number of broadcasts before it was removed.
   */
  datatype Server = Server(
    eventC: seq<Option<FlowEvent>>,
    clients: set<Client>,
    inHand: Option<FlowEvent>,
    broadcast: Option<Broadcast>,
    removals: multiset<Client>,
    emitted: seq<Option<FlowEvent>>,
    taken: seq<Option<FlowEvent>>,
    sent: seq<FlowEvent>,
    joined: map<Client, nat>,
    lines: map<Client, seq<FlowEvent>>,
    failed: map<Client, int>,
    removed: map<Client, nat>)

  const NEW_SERVER := Server([], {}, None, None, multiset{}, [], [], [], map[], map[], map[], map[])

  datatype Action =
    | Emit(event: Option<FlowEvent>)
    | Join(client: Client)
    | Take
    | Lock
    | Write(client: Client, ok: bool)
    | Unlock
    | Remove(client: Client)

  /** Whether an event is there and can be marshalled; marshals stands for the success of json.Marshal. */
  predicate Good(marshals: FlowEvent -> bool, e: Option<FlowEvent>) {
    e.Some? && marshals(e.value)
  }

  predicate Enabled(s: Server, a: Action) {
    match a
    case Emit(_) => |s.eventC| < CAPACITY
    case Join(c) => s.broadcast.None? && c !in s.joined
    case Take => s.eventC != [] && s.inHand.None? && s.broadcast.None?
    case Lock => s.inHand.Some? && s.broadcast.None?
    case Write(c, _) => s.broadcast.Some? && c in s.broadcast.value.todo
    case Unlock => s.broadcast.Some? && s.broadcast.value.todo == {}
    case Remove(c) => s.broadcast.None? && c in s.removals
  }

  /** Lines of a client with one more. */
  function Extended(lines: map<Client, seq<FlowEvent>>, c: Client, e: FlowEvent): map<Client, seq<FlowEvent>> {
    lines[c := (if c in lines then lines[c] else []) + [e]]
  }

  function Step(marshals: FlowEvent -> bool, s: Server, a: Action): Server
    requires Enabled(s, a)
  {
    match a
    case Emit(e) => s.(eventC := s.eventC + [e], emitted := s.emitted + [e])
    case Join(c) => s.(clients := s.clients + {c}, joined := s.joined[c := |s.sent|], lines := s.lines[c := []])
    case Take =>
      var e := s.eventC[0];
      s.(eventC := s.eventC[1..], taken := s.taken + [e], inHand := if Good(marshals, e) then e else None)
    case Lock =>
      s.(inHand := None, broadcast := Some(Broadcast(s.inHand.value, s.clients, s.clients)),
         sent := s.sent + [s.inHand.value])
    case Write(c, ok) =>
      var b := s.broadcast.value;
      var s' := s.(broadcast := Some(b.(todo := b.todo - {c})));
      if ok then s'.(lines := Extended(s.lines, c, b.event))
      else s'.(removals := s.removals + multiset{c},
              failed := if c in s.failed then s.failed else s.failed[c := |s.sent| - 1])
    case Unlock => s.(broadcast := None)
    case Remove(c) =>
      s.(removals := s.removals - multiset{c}, clients := s.clients - {c},
         removed := if c in s.clients then s.removed[c := |s.sent|] else s.removed)
  }

  function Exec(marshals: FlowEvent -> bool, actions: seq<Action>): Option<Server> {
    if actions == [] then Some(NEW_SERVER)
    else
      var n := |actions| - 1;
      match Exec(marshals, actions[..n])
      case None => None
      case Some(s) => if Enabled(s, actions[n]) then Some(Step(marshals, s, actions[n])) else None
  }

  // ---------------------------------------------------------------- first in, first out

  /** The events of a list that are there and can be marshalled. */
  function GoodOnes(marshals: FlowEvent -> bool, es: seq<Option<FlowEvent>>): seq<FlowEvent> {
    if es == [] then []
    else
      var last := es[|es| - 1];
      GoodOnes(marshals, es[..|es| - 1]) + if Good(marshals, last) then [last.value] else []
  }

  lemma GoodSnoc(marshals: FlowEvent -> bool, es: seq<Option<FlowEvent>>, e: Option<FlowEvent>)
    ensures GoodOnes(marshals, es + [e]) == GoodOnes(marshals, es) + if Good(marshals, e) then [e.value] else []
  {
    assert (es + [e])[..|es|] == es;
  }

  predicate QueueInv(marshals: FlowEvent -> bool, s: Server) {
    && s.emitted == s.taken + s.eventC
    && GoodOnes(marshals, s.taken) == s.sent + (if s.inHand.Some? then [s.inHand.value] else [])
  }

  // ---------------------------------------------------------------- what clients get

  /** The client is being broadcast to and has not been written to yet. */
  predicate Awaits(s: Server, c: Client) {
    s.broadcast.Some? && c in s.broadcast.value.todo
  }

  /** A client without a failed write has got every broadcast since it joined, but for the one it awaits. */
  predicate UpToDate(s: Server, c: Client)
    requires c in s.joined && c in s.lines
  {
    s.joined[c] <= |s.sent| &&
    s.lines[c] + (if Awaits(s, c) then [s.broadcast.value.event] else []) == s.sent[s.joined[c]..]
  }

  predicate Subsequence(a: seq<FlowEvent>, b: seq<FlowEvent>)
    decreases |b|
  {
    if a == [] then true
    else if b == [] then false
    else if a[|a| - 1] == b[|b| - 1] then Subsequence(a[..|a| - 1], b[..|b| - 1])
    else Subsequence(a, b[..|b| - 1])
  }

  lemma {:induction false} SubsequenceShorter(a: seq<FlowEvent>, b: seq<FlowEvent>)
    requires a != [] && Subsequence(a, b)
    ensures Subsequence(a[..|a| - 1], b)
    decreases |b|
  {
    var a', b' := a[..|a| - 1], b[..|b| - 1];
    if a[|a| - 1] == b[|b| - 1] {
      if a' != [] {
        SubsequenceShorter(a', b');
      }
    } else {
      SubsequenceShorter(a, b');
      if a' != [] {
        SubsequenceShorter(a', b');
      }
    }
  }

  lemma SubsequenceSnoc(a: seq<FlowEvent>, b: seq<FlowEvent>, e: FlowEvent)
    requires Subsequence(a, b)
    ensures Subsequence(a, b + [e]) && Subsequence(a + [e], b + [e])
  {
    assert (a + [e])[..|a|] == a && (b + [e])[..|b|] == b;
    if a != [] && a[|a| - 1] == e {
      SubsequenceShorter(a, b);
    }
  }

  /** The number of broadcasts that are behind a client: those before its removal, or all but the one it awaits. */
  function Turns(s: Server, c: Client): int {
    if c in s.removed then s.removed[c] else |s.sent| - if Awaits(s, c) then 1 else 0
  }

  /**
    A client with a failed write has got every broadcast from its joining up to that one first, then not that one,
    and then some of the later ones, in order, but none from its removal on.
   */
  predicate UpToFailure(s: Server, c: Client)
    requires c in s.joined && c in s.lines && c in s.failed
  {
    GotUpTo(s.lines[c], s.sent, s.joined[c], s.failed[c], Turns(s, c))
  }

  /** Lines got out of the broadcasts from joined on, of which first failed and turns - 1 was the last so far. */
  predicate GotUpTo(lines: seq<FlowEvent>, sent: seq<FlowEvent>, joined: nat, first: int, turns: int) {
    && joined <= first < turns <= |sent|
    && first - joined <= |lines| && lines[..first - joined] == sent[joined..first]
    && Subsequence(lines[first - joined..], sent[first + 1..turns])
  }

  lemma OneMoreSent(lines: seq<FlowEvent>, sent: seq<FlowEvent>, joined: nat, first: int, turns: int, e: FlowEvent)
    requires GotUpTo(lines, sent, joined, first, turns)
    ensures GotUpTo(lines, sent + [e], joined, first, turns)
  {
    assert (sent + [e])[joined..first] == sent[joined..first];
    assert (sent + [e])[first + 1..turns] == sent[first + 1..turns];
  }

  lemma SliceGrows(sent: seq<FlowEvent>, i: nat, j: nat)
    requires i <= j < |sent|
    ensures sent[i..j + 1] == sent[i..j] + [sent[j]]
  {
  }

  lemma SnocParts(lines: seq<FlowEvent>, e: FlowEvent, n: nat)
    requires n <= |lines|
    ensures (lines + [e])[..n] == lines[..n] && (lines + [e])[n..] == lines[n..] + [e]
  {
  }

  lemma OneMoreMissed(lines: seq<FlowEvent>, sent: seq<FlowEvent>, joined: nat, first: int, turns: int)
    requires GotUpTo(lines, sent, joined, first, turns) && turns < |sent|
    ensures GotUpTo(lines, sent, joined, first, turns + 1)
  {
    SliceGrows(sent, first + 1, turns);
    SubsequenceSnoc(lines[first - joined..], sent[first + 1..turns], sent[turns]);
  }

  lemma OneMoreGot(lines: seq<FlowEvent>, sent: seq<FlowEvent>, joined: nat, first: int, turns: int)
    requires GotUpTo(lines, sent, joined, first, turns) && turns < |sent|
    ensures GotUpTo(lines + [sent[turns]], sent, joined, first, turns + 1)
  {
    SliceGrows(sent, first + 1, turns);
    SnocParts(lines, sent[turns], first - joined);
    SubsequenceSnoc(lines[first - joined..], sent[first + 1..turns], sent[turns]);
  }

  predicate ClientInv(s: Server, c: Client)
    requires c in s.joined
  {
    && c in s.lines
    && (c in s.clients <==> c !in s.removed)
    && (c !in s.failed ==> c in s.clients && c !in s.removals && UpToDate(s, c))
    && (c in s.failed ==> UpToFailure(s, c) && (c in s.clients ==> c in s.removals))
  }

  predicate KeysInv(s: Server) {
    && s.clients <= s.joined.Keys && s.failed.Keys <= s.joined.Keys && s.removed.Keys <= s.joined.Keys
    && forall c :: c in s.removals ==> c in s.failed
  }

  predicate BroadcastInv(s: Server) {
    s.broadcast.Some? ==>
      && s.inHand.None?
      && s.broadcast.value.members == s.clients
      && s.broadcast.value.todo <= s.broadcast.value.members
      && |s.sent| > 0 && s.sent[|s.sent| - 1] == s.broadcast.value.event
  }

  predicate MembersInv(s: Server) {
    KeysInv(s) && BroadcastInv(s)
  }

  predicate Inv(marshals: FlowEvent -> bool, s: Server) {
    QueueInv(marshals, s) && MembersInv(s) && forall c :: c in s.joined ==> ClientInv(s, c)
  }

  // ---------------------------------------------------------------- one step

  lemma QueueStep(marshals: FlowEvent -> bool, s: Server, a: Action)
    requires Enabled(s, a) && QueueInv(marshals, s)
    ensures QueueInv(marshals, Step(marshals, s, a))
  {
    match a
    case Take =>
      GoodSnoc(marshals, s.taken, s.eventC[0]);
      assert s.taken + s.eventC == s.taken + [s.eventC[0]] + s.eventC[1..];
    case Emit(e) => assert s.taken + (s.eventC + [e]) == s.taken + s.eventC + [e];
    case Lock => assert s.sent + [s.inHand.value] == (s.sent + [s.inHand.value]) + [];
    case _ =>
  }

  lemma LockKeepsFailed(marshals: FlowEvent -> bool, s: Server, c: Client)
    requires Enabled(s, Lock) && c in s.joined && c in s.lines && c in s.failed && UpToFailure(s, c)
    requires c in s.clients <==> c !in s.removed
    ensures UpToFailure(Step(marshals, s, Lock), c)
  {
    OneMoreSent(s.lines[c], s.sent, s.joined[c], s.failed[c], Turns(s, c), s.inHand.value);
  }

  lemma LockKeepsClient(marshals: FlowEvent -> bool, s: Server, c: Client)
    requires Enabled(s, Lock) && MembersInv(s) && c in s.joined && ClientInv(s, c)
    ensures ClientInv(Step(marshals, s, Lock), c)
  {
    var s' := Step(marshals, s, Lock);
    if c in s.failed {
      LockKeepsFailed(marshals, s, c);
    } else {
      assert s'.sent[s.joined[c]..] == s.sent[s.joined[c]..] + [s.inHand.value];
    }
  }

  lemma FirstFailure(marshals: FlowEvent -> bool, s: Server, c: Client)
    requires Enabled(s, Write(c, false)) && MembersInv(s) && c !in s.removed
    requires c in s.joined && c in s.lines && c !in s.failed && UpToDate(s, c)
    ensures UpToFailure(Step(marshals, s, Write(c, false)), c)
  {
    var s', n := Step(marshals, s, Write(c, false)), |s.sent| - 1;
    assert s.lines[c] + [s.broadcast.value.event] == s.sent[s.joined[c]..];
    assert |s.sent[s.joined[c]..]| > 0;
    assert s.sent[s.joined[c]..n] == s.sent[s.joined[c]..][..n - s.joined[c]] == s.lines[c];
    assert s'.lines[c][n - s.joined[c]..] == [];
  }

  lemma WriteKeepsFailed(marshals: FlowEvent -> bool, s: Server, c: Client, ok: bool)
    requires Enabled(s, Write(c, ok)) && MembersInv(s) && c !in s.removed
    requires c in s.joined && c in s.lines && c in s.failed && UpToFailure(s, c)
    ensures UpToFailure(Step(marshals, s, Write(c, ok)), c)
  {
    if ok {
      OneMoreGot(s.lines[c], s.sent, s.joined[c], s.failed[c], Turns(s, c));
    } else {
      OneMoreMissed(s.lines[c], s.sent, s.joined[c], s.failed[c], Turns(s, c));
    }
  }

  lemma OtherWrite(marshals: FlowEvent -> bool, s: Server, w: Client, ok: bool, c: Client)
    requires Enabled(s, Write(w, ok)) && c in s.joined && c != w && ClientInv(s, c)
    ensures ClientInv(Step(marshals, s, Write(w, ok)), c)
  {
    assert Awaits(Step(marshals, s, Write(w, ok)), c) == Awaits(s, c);
  }

  lemma WriteKeepsClient(marshals: FlowEvent -> bool, s: Server, w: Client, ok: bool, c: Client)
    requires Enabled(s, Write(w, ok)) && MembersInv(s) && c in s.joined && ClientInv(s, c)
    ensures ClientInv(Step(marshals, s, Write(w, ok)), c)
  {
    var s' := Step(marshals, s, Write(w, ok));
    if c != w {
      OtherWrite(marshals, s, w, ok, c);
    } else if c in s.failed {
      WriteKeepsFailed(marshals, s, c, ok);
    } else if ok {
      assert s'.lines[c] + [] == s.lines[c] + [s.broadcast.value.event];
    } else {
      FirstFailure(marshals, s, c);
    }
  }

  lemma OtherKeepsClient(marshals: FlowEvent -> bool, s: Server, a: Action, c: Client)
    requires Enabled(s, a) && !a.Lock? && !a.Write? && MembersInv(s)
    requires c in s.joined && ClientInv(s, c)
    ensures ClientInv(Step(marshals, s, a), c)
  {
  }

  lemma KeysStep(marshals: FlowEvent -> bool, s: Server, a: Action)
    requires Enabled(s, a) && KeysInv(s) && BroadcastInv(s)
    ensures KeysInv(Step(marshals, s, a))
  {
    var s' := Step(marshals, s, a);
    forall c | c in s'.removals ensures c in s'.failed {
      assert c in s.removals || (a.Write? && c == a.client);
    }
  }

  lemma BroadcastStep(marshals: FlowEvent -> bool, s: Server, a: Action)
    requires Enabled(s, a) && BroadcastInv(s)
    ensures BroadcastInv(Step(marshals, s, a))
  {
  }

  lemma MembersStep(marshals: FlowEvent -> bool, s: Server, a: Action)
    requires Enabled(s, a) && MembersInv(s)
    ensures MembersInv(Step(marshals, s, a))
  {
    KeysStep(marshals, s, a);
    BroadcastStep(marshals, s, a);
  }

  lemma JoinMakesClient(marshals: FlowEvent -> bool, s: Server, c: Client)
    requires Enabled(s, Join(c)) && MembersInv(s)
    ensures ClientInv(Step(marshals, s, Join(c)), c)
  {
  }

  lemma StepKeepsClient(marshals: FlowEvent -> bool, s: Server, a: Action, c: Client)
    requires Enabled(s, a) && MembersInv(s)
    requires c in s.joined ==> ClientInv(s, c)
    requires c in Step(marshals, s, a).joined
    ensures ClientInv(Step(marshals, s, a), c)
  {
    if c !in s.joined {
      JoinMakesClient(marshals, s, c);
    } else {
      match a
      case Lock => LockKeepsClient(marshals, s, c);
      case Write(w, ok) => WriteKeepsClient(marshals, s, w, ok, c);
      case _ => OtherKeepsClient(marshals, s, a, c);
    }
  }

  lemma StepKeeps(marshals: FlowEvent -> bool, s: Server, a: Action)
    requires Enabled(s, a) && Inv(marshals, s)
    ensures Inv(marshals, Step(marshals, s, a))
  {
    QueueStep(marshals, s, a);
    MembersStep(marshals, s, a);
    forall c | c in Step(marshals, s, a).joined ensures ClientInv(Step(marshals, s, a), c) {
      StepKeepsClient(marshals, s, a, c);
    }
  }

  lemma {:induction false} RunKeeps(marshals: FlowEvent -> bool, actions: seq<Action>)
    requires Exec(marshals, actions).Some?
    ensures Inv(marshals, Exec(marshals, actions).value)
  {
    if actions == [] {
    } else {
      var n := |actions| - 1;
      RunKeeps(marshals, actions[..n]);
      StepKeeps(marshals, Exec(marshals, actions[..n]).value, actions[n]);
    }
  }

  /**
    In every interleaving of events, joins, broadcasts and deferred removals: events are broadcast in the order they
    were emitted, leaving out only those that cannot be marshalled; a client gets every broadcast from its joining
    on, in that order, up to its first failed write, not that one, and from then on only some of the later ones, still
    in order, and none from its removal on; a client is removed, or waits for it, exactly when a write to it has failed;
    and the set of clients does not change during a broadcast.
   */
  lemma ClientsGetEveryEvent(marshals: FlowEvent -> bool, actions: seq<Action>, c: Client)
    requires Exec(marshals, actions).Some?
    ensures
      var s := Exec(marshals, actions).value;
      && s.emitted == s.taken + s.eventC
      && GoodOnes(marshals, s.taken) == s.sent + (if s.inHand.Some? then [s.inHand.value] else [])
      && (s.broadcast.Some? ==> s.broadcast.value.members == s.clients)
      && (c in s.joined ==>
            && c in s.lines
            && (c in s.clients <==> c !in s.removed)
            && (c !in s.failed ==> c in s.clients && UpToDate(s, c))
            && (c in s.failed ==> UpToFailure(s, c) && (c in s.removals || c in s.removed)))
  {
    RunKeeps(marshals, actions);
    var s := Exec(marshals, actions).value;
    assert c in s.joined ==> ClientInv(s, c);
  }

  /** An event is accepted exactly while fewer than 100 are waiting. */
  lemma EmitExact(s: Server, e: Option<FlowEvent>)
    ensures Enabled(s, Emit(e)) <==> |s.eventC| < 100
  {
  }

  lemma ExecSnoc(marshals: FlowEvent -> bool, actions: seq<Action>, a: Action)
    requires Exec(marshals, actions).Some? && Enabled(Exec(marshals, actions).value, a)
    ensures Exec(marshals, actions + [a]) == Some(Step(marshals, Exec(marshals, actions).value, a))
  {
    assert (actions + [a])[..|actions|] == actions;
  }

  /** A single client, no broadcast under way, and what it has got. */
  predicate Alone(s: Server, c: Client, inHand: Option<FlowEvent>, got: seq<FlowEvent>) {
    && s.eventC == [] && s.clients == {c} && s.inHand == inHand && s.broadcast.None?
    && c in s.lines && s.lines[c] == got
  }

  lemma EventIsTaken(marshals: FlowEvent -> bool, before: seq<Action>, c: Client, e: FlowEvent)
    requires marshals(e) && Exec(marshals, before).Some? && Alone(Exec(marshals, before).value, c, None, [])
    ensures
      var s := Exec(marshals, before + [Emit(Some(e))] + [Take]);
      s.Some? && Alone(s.value, c, Some(e), [])
  {
    ExecSnoc(marshals, before, Emit(Some(e)));
    ExecSnoc(marshals, before + [Emit(Some(e))], Take);
  }

  lemma EventIsWritten(marshals: FlowEvent -> bool, before: seq<Action>, c: Client, e: FlowEvent)
    requires Exec(marshals, before).Some? && Alone(Exec(marshals, before).value, c, Some(e), [])
    ensures
      var s := Exec(marshals, before + [Lock] + [Write(c, true)] + [Unlock]);
      s.Some? && Alone(s.value, c, None, [e])
  {
    ExecSnoc(marshals, before, Lock);
    ExecSnoc(marshals, before + [Lock], Write(c, true));
    var written := before + [Lock] + [Write(c, true)];
    assert Exec(marshals, written).value.broadcast.value.todo == {};
    assert Exec(marshals, written).value.lines[c] == [] + [e];
    ExecSnoc(marshals, written, Unlock);
  }

  /** One client, one event. */
  function Delivery(c: Client, e: FlowEvent): seq<Action> {
    [] + [Join(c)] + [Emit(Some(e))] + [Take] + [Lock] + [Write(c, true)] + [Unlock]
  }

  /** A client that has joined gets an event that can be marshalled. */
  lemma EventIsDelivered(marshals: FlowEvent -> bool, c: Client, e: FlowEvent)
    requires marshals(e)
    ensures
      var s := Exec(marshals, Delivery(c, e));
      s.Some? && Alone(s.value, c, None, [e])
  {
    var none: seq<Action> := [];
    ExecSnoc(marshals, none, Join(c));
    var joined := none + [Join(c)];
    EventIsTaken(marshals, joined, c, e);
    EventIsWritten(marshals, joined + [Emit(Some(e))] + [Take], c, e);
  }

  // ---------------------------------------------------------------- the server object

  /** A client that has been written to. */
  predicate Served(s: Server, e: FlowEvent, accepts: bool, s': Server, c: Client) {
    && c in s.lines && c in s'.lines
    && (accepts ==> s'.lines[c] == s.lines[c] + [e] && s'.removals[c] == s.removals[c])
    && (!accepts ==> s'.lines[c] == s.lines[c] && s'.removals[c] == s.removals[c] + 1 && c in s'.failed)
  }

  predicate NotServed(s: Server, s': Server, c: Client) {
    c in s.lines && c in s'.lines && s'.lines[c] == s.lines[c] && s'.removals[c] == s.removals[c]
  }

  /** A broadcast is under way, and all but the clients in todo have been written to. */
  predicate Serving(s: Server, e: FlowEvent, accepting: set<Client>, todo: set<Client>, s': Server) {
    && s'.clients == s.clients && s'.joined == s.joined && s'.eventC == s.eventC && s'.sent == s.sent + [e]
    && (forall c :: c in s.clients && c in todo ==> NotServed(s, s', c))
    && (forall c :: c in s.clients && c !in todo ==> Served(s, e, c in accepting, s', c))
  }

  lemma LockServes(marshals: FlowEvent -> bool, s: Server, e: FlowEvent, accepting: set<Client>)
    requires Inv(marshals, s) && s.broadcast.None? && s.inHand == Some(e)
    ensures
      var m := Step(marshals, s, Lock);
      Serving(s, e, accepting, s.clients, m) && m.broadcast == Some(Broadcast(e, s.clients, s.clients))
  {
    assert forall c :: c in s.clients ==> ClientInv(s, c);
  }

  lemma UnlockServes(marshals: FlowEvent -> bool, s: Server, e: FlowEvent, accepting: set<Client>, m: Server)
    requires Serving(s, e, accepting, {}, m) && Enabled(m, Unlock)
    ensures Serving(s, e, accepting, {}, Step(marshals, m, Unlock))
  {
    var m' := Step(marshals, m, Unlock);
    forall c | c in s.clients ensures Served(s, e, c in accepting, m', c) {
      assert Served(s, e, c in accepting, m, c);
    }
  }

  lemma WriteServes(
    marshals: FlowEvent -> bool, s: Server, e: FlowEvent, accepting: set<Client>, todo: set<Client>, m: Server,
    w: Client)
    requires Serving(s, e, accepting, todo, m) && w in todo && w in s.clients
    requires m.broadcast == Some(Broadcast(e, s.clients, todo))
    ensures Serving(s, e, accepting, todo - {w}, Step(marshals, m, Write(w, w in accepting)))
  {
    var m' := Step(marshals, m, Write(w, w in accepting));
    forall c | c in s.clients && c in todo - {w} ensures NotServed(s, m', c) {
      assert NotServed(s, m, c);
    }
    forall c | c in s.clients && c !in todo - {w} ensures Served(s, e, c in accepting, m', c) {
      assert c == w ==> NotServed(s, m, c);
      assert c != w ==> Served(s, e, c in accepting, m, c);
    }
  }

  lemma RemoveParts(marshals: FlowEvent -> bool, s: Server, c: Client)
    requires Enabled(s, Remove(c))
    ensures
      var s' := Step(marshals, s, Remove(c));
      && s'.eventC == s.eventC && s'.clients == s.clients - {c} && s'.removals == s.removals - multiset{c}
      && s'.broadcast.None?
  {
  }

  /** eventC, clients and the removal goroutines that wait for the mutex. */
  class Notifier {
    const marshals: FlowEvent -> bool
    var eventC: seq<Option<FlowEvent>>
    var clients: set<Client>
    var removals: multiset<Client>
    ghost var model: Server

    /** The fields agree with the model, which is in a state that can be reached. */
    ghost predicate Mirrors()
      reads this
    {
      eventC == model.eventC && clients == model.clients && removals == model.removals && Inv(marshals, model)
    }

    /** The mutex is free. */
    ghost predicate Valid()
      reads this
    {
      Mirrors() && model.broadcast.None?
    }

    constructor (marshals: FlowEvent -> bool)
      ensures Valid() && model == NEW_SERVER && this.marshals == marshals
    {
      this.marshals := marshals;
      eventC, clients, removals := [], {}, multiset{};
      model := NEW_SERVER;
    }

    /** FlowCreated and FlowDeleted: the send goes on waiting, with nothing changed, while the channel is full. */
    method SendEvent(e: Option<FlowEvent>) returns (sent: bool)
      requires Valid()
      modifies this
      ensures Valid() && (sent <==> Enabled(old(model), Emit(e)))
      ensures model == if sent then Step(marshals, old(model), Emit(e)) else old(model)
    {
      sent := |eventC| < CAPACITY;
      if !sent {
        return;
      }
      StepKeeps(marshals, model, Emit(e));
      eventC := eventC + [e];
      model := Step(marshals, model, Emit(e));
    }

    /** A connection is accepted only once. */
    method AddClient(c: Client)
      requires Valid() && c !in model.joined
      modifies this
      ensures Valid() && model == Step(marshals, old(model), Join(c))
    {
      StepKeeps(marshals, model, Join(c));
      clients := clients + {c};
      model := Step(marshals, model, Join(c));
    }

    /** A removal that was waiting; the client may be gone already. */
    method RemoveClient(c: Client)
      requires Valid() && c in removals
      modifies this
      ensures Valid() && model == Step(marshals, old(model), Remove(c))
    {
      ghost var next := Step(marshals, model, Remove(c));
      RemoveParts(marshals, model, c);
      StepKeeps(marshals, model, Remove(c));
      removals := removals - multiset{c};
      Forget(c);
      model := next;
    }

    method Forget(c: Client)
      modifies this`clients
      ensures clients == old(clients) - {c}
    {
      if c in clients {
        clients := clients - {c};
      }
    }

    /** Takes an event from the channel; r is what there is to broadcast. */
    method TakeEvent() returns (r: Option<FlowEvent>)
      requires Valid() && eventC != [] && model.inHand.None?
      modifies this
      ensures Valid() && model == Step(marshals, old(model), Take) && r == model.inHand
    {
      StepKeeps(marshals, model, Take);
      var e := eventC[0];
      eventC := eventC[1..];
      r := if e.Some? && marshals(e.value) then e else None;
      model := Step(marshals, model, Take);
    }

    /** One write of a broadcast; a failed one leaves a removal waiting. */
    method WriteClient(c: Client, accepts: bool)
      requires Mirrors() && Enabled(model, Write(c, accepts))
      modifies this
      ensures Mirrors() && model == Step(marshals, old(model), Write(c, accepts))
      ensures clients == old(clients)
    {
      StepKeeps(marshals, model, Write(c, accepts));
      if !accepts {
        removals := removals + multiset{c};
      }
      model := Step(marshals, model, Write(c, accepts));
    }

    /** A broadcast that began in state s is under way, with the clients in todo still to be written to. */
    ghost predicate Broadcasting(s: Server, e: FlowEvent, accepting: set<Client>, todo: set<Client>)
      reads this
    {
      && Mirrors() && clients == s.clients && model.broadcast == Some(Broadcast(e, s.clients, todo))
      && todo <= s.clients && Serving(s, e, accepting, todo, model)
    }

    /** One round of the loop over the clients. */
    method ServeClient(c: Client, ghost s: Server, ghost e: FlowEvent, accepting: set<Client>, ghost todo: set<Client>)
      requires Broadcasting(s, e, accepting, todo) && c in todo
      modifies this
      ensures Broadcasting(s, e, accepting, todo - {c})
    {
      WriteServes(marshals, s, e, accepting, todo, model, c);
      WriteClient(c, c in accepting);
    }

    /** Writes to all clients, in any order; accepting are those whose connection takes the write. */
    method SendToAllListeners(e: FlowEvent, accepting: set<Client>)
      requires Valid() && model.inHand == Some(e)
      modifies this
      ensures Valid() && clients == old(clients)
      ensures Serving(old(model), e, accepting, {}, model)
    {
      ghost var s := model;
      LockServes(marshals, s, e, accepting);
      StepKeeps(marshals, model, Lock);
      model := Step(marshals, model, Lock);
      var todo := clients;
      while todo != {}
        invariant Broadcasting(s, e, accepting, todo)
        decreases |todo|
      {
        var c: Client :| c in todo;
        ServeClient(c, s, e, accepting, todo);
        todo := todo - {c};
      }
      UnlockServes(marshals, s, e, accepting, model);
      StepKeeps(marshals, model, Unlock);
      model := Step(marshals, model, Unlock);
    }
  }
}
