/**
  The discipline the saver keeps towards its files: every file is opened before anything is queued for it,
  everything for one file goes through one channel, and it gets exactly one close task, after all its records.
 */
module Files {
  import opened Bytes
  import InetDiag
  import opened Archival
  import opened Cache
  import opened SaverModel

  /** Number of files opened. */
  function Opens(es: seq<Effect>): nat {
    if es == [] then 0
    else Opens(es[..|es| - 1]) + if es[|es| - 1].Opened? then 1 else 0
  }

  /** Number of close tasks queued for a writer. */
  function Closes(es: seq<Effect>, w: nat): nat {
    if es == [] then 0
    else
      var last := es[|es| - 1];
      Closes(es[..|es| - 1], w) + if last.CloseQueued? && last.writer == w then 1 else 0
  }

  /** A task for writer w on a channel is in order after the effects before. */
  predicate TaskOk(n: Positive, files: seq<Metadata>, before: seq<Effect>, channel: nat, w: nat) {
    && w < Opens(before) && w < |files|
    && Closes(before, w) == 0
    && channel == files[w].cookie % n
  }

  predicate EffectOk(n: Positive, files: seq<Metadata>, before: seq<Effect>, e: Effect) {
    match e
    case Opened(w) => w == Opens(before)
    case Queued(channel, w, msg) => TaskOk(n, files, before, channel, w) && CookieOf(msg) == files[w].cookie
    case CloseQueued(channel, w) => TaskOk(n, files, before, channel, w)
    case Dropped(_) => true
  }

  /**
    Writers are named in the order of opening; a task names an opened writer that has no close task yet,
    and goes to the one channel of that writer.
   */
  predicate Protocol(n: Positive, files: seq<Metadata>, es: seq<Effect>) {
    es == [] || (Protocol(n, files, es[..|es| - 1]) && EffectOk(n, files, es[..|es| - 1], es[|es| - 1]))
  }

  lemma Snoc(n: Positive, files: seq<Metadata>, es: seq<Effect>, e: Effect)
    ensures Opens(es + [e]) == Opens(es) + if e.Opened? then 1 else 0
    ensures forall w :: Closes(es + [e], w) == Closes(es, w) + if e.CloseQueued? && e.writer == w then 1 else 0
    ensures Protocol(n, files, es + [e]) <==> Protocol(n, files, es) && EffectOk(n, files, es, e)
  {
    assert (es + [e])[..|es|] == es;
  }

  /** A further file does not disturb what was done for the earlier ones. */
  lemma {:induction false} MoreFiles(n: Positive, files: seq<Metadata>, es: seq<Effect>, header: Metadata)
    requires Protocol(n, files, es) && Opens(es) <= |files|
    ensures Protocol(n, files + [header], es)
  {
    if es == [] {
    } else {
      MoreFiles(n, files, es[..|es| - 1], header);
    }
  }

  /** Only opened writers are closed. */
  lemma {:induction false} ClosedWereOpened(n: Positive, files: seq<Metadata>, es: seq<Effect>, w: nat)
    requires Protocol(n, files, es)
    ensures Closes(es, w) > 0 ==> w < Opens(es)
    ensures Closes(es, w) <= 1
  {
    if es == [] {
    } else {
      ClosedWereOpened(n, files, es[..|es| - 1], w);
    }
  }

  // ---------------------------------------------------------------- the invariant

  predicate IsOpen(o: Output, w: nat) {
    w < |o.files| && Closes(o.effects, w) == 0
  }

  /** A connection's writer is open, and is for that connection. */
  predicate Owns(o: Output, cookie: U64, conn: Connection) {
    && cookie != 0 && InetDiag.CookieUint64(conn.id) == cookie
    && (conn.writer.Some? ==> IsOpen(o, conn.writer.value) && o.files[conn.writer.value].cookie == cookie)
  }

  /** An open writer is held by its connection. */
  predicate Held(o: Output, w: nat)
    requires w < |o.files|
  {
    var cookie := o.files[w].cookie;
    cookie in o.connections && o.connections[cookie].writer == Some(w)
  }

  ghost predicate FilesInv(env: Env, o: Output) {
    && Protocol(env.channels, o.files, o.effects)
    && Opens(o.effects) == |o.files|
    && (forall c :: c in o.connections ==> Owns(o, c, o.connections[c]))
    && (forall w :: IsOpen(o, w) ==> Held(o, w))
  }

  lemma EnsuredKeeps(env: Env, o: Output, msg: CachedRecord)
    requires FilesInv(env, o) && CookieOf(msg) != 0
    ensures FilesInv(env, Ensured(env, o, msg))
  {
    var o' := Ensured(env, o, msg);
    assert forall w :: IsOpen(o', w) ==> IsOpen(o, w) && Held(o, w);
    assert forall c :: c in o.connections ==> Owns(o, c, o.connections[c]);
  }

  lemma RetiredKeeps(env: Env, o: Output, cookie: U64)
    requires FilesInv(env, o) && cookie in o.connections
    ensures FilesInv(env, Retired(env, o, cookie))
  {
    var o' := Retired(env, o, cookie);
    assert Owns(o, cookie, o.connections[cookie]);
    if o'.effects != o.effects {
      Snoc(env.channels, o.files, o.effects, o'.effects[|o.effects|]);
      assert o'.effects == o.effects + [o'.effects[|o.effects|]];
      forall w: nat | IsOpen(o', w) ensures Held(o', w) {
        assert IsOpen(o, w) && Held(o, w);
      }
      forall c | c in o'.connections ensures Owns(o', c, o'.connections[c]) {
        assert Owns(o, c, o.connections[c]);
      }
    } else {
      assert forall w :: IsOpen(o', w) ==> IsOpen(o, w) && Held(o, w);
      assert forall c :: c in o.connections ==> Owns(o, c, o.connections[c]);
    }
  }

  lemma RotatedKeeps(env: Env, o: Output, cookie: U64)
    requires FilesInv(env, o) && cookie in o.connections
    ensures FilesInv(env, Rotated(env, o, cookie))
  {
    var o' := Rotated(env, o, cookie);
    assert Owns(o, cookie, o.connections[cookie]);
    if o'.files != o.files {
      var w0 := |o.files|;
      MoreFiles(env.channels, o.files, o.effects, o'.files[w0]);
      assert o'.files == o.files + [o'.files[w0]];
      Snoc(env.channels, o'.files, o.effects, Opened(w0));
      ClosedWereOpened(env.channels, o.files, o.effects, w0);
      forall w: nat | IsOpen(o', w) ensures Held(o', w) {
        if w < w0 {
          assert IsOpen(o, w) && Held(o, w);
        }
      }
      forall c | c in o'.connections ensures Owns(o', c, o'.connections[c]) {
        assert Owns(o, c, o.connections[c]);
      }
    } else {
      assert forall w :: IsOpen(o', w) ==> IsOpen(o, w) && Held(o, w);
      assert forall c :: c in o.connections ==> Owns(o, c, o.connections[c]);
    }
  }

  /** An effect that opens and closes nothing, and is in order, keeps the invariant. */
  lemma AppendKeeps(env: Env, o: Output, e: Effect)
    requires FilesInv(env, o)
    requires !e.Opened? && !e.CloseQueued? && EffectOk(env.channels, o.files, o.effects, e)
    ensures FilesInv(env, o.(effects := o.effects + [e]))
  {
    var o' := o.(effects := o.effects + [e]);
    Snoc(env.channels, o.files, o.effects, e);
    forall w: nat | IsOpen(o', w) ensures Held(o', w) {
      assert IsOpen(o, w) && Held(o, w);
    }
    forall c | c in o'.connections ensures Owns(o', c, o'.connections[c]) {
      assert Owns(o, c, o.connections[c]);
    }
  }

  lemma QueueKeepsFiles(env: Env, o: Output, msg: CachedRecord)
    requires FilesInv(env, o)
    ensures FilesInv(env, Queue(env, o, msg))
  {
    var cookie := CookieOf(msg);
    if cookie == 0 {
      AppendKeeps(env, o, Dropped(msg));
    } else {
      var o1 := Ensured(env, o, msg);
      EnsuredKeeps(env, o, msg);
      var o2 := Retired(env, o1, cookie);
      RetiredKeeps(env, o1, cookie);
      var o3 := Rotated(env, o2, cookie);
      RotatedKeeps(env, o2, cookie);
      assert Owns(o3, cookie, o3.connections[cookie]);
      var w := o3.connections[cookie].writer;
      AppendKeeps(env, o3, if w.None? then Dropped(msg) else Queued(ChannelOf(env, cookie), w.value, msg));
    }
  }

  lemma EndConnKeepsFiles(env: Env, o: Output, cookie: U64)
    requires FilesInv(env, o)
    ensures FilesInv(env, EndConn(env, o, cookie))
  {
    var o' := EndConn(env, o, cookie);
    if cookie in o.connections && o.connections[cookie].writer.Some? {
      var w0 := o.connections[cookie].writer.value;
      assert Owns(o, cookie, o.connections[cookie]);
      Snoc(env.channels, o.files, o.effects, CloseQueued(ChannelOf(env, cookie), w0));
      forall w: nat | IsOpen(o', w) ensures Held(o', w) {
        assert IsOpen(o, w) && Held(o, w);
      }
      forall c | c in o'.connections ensures Owns(o', c, o'.connections[c]) {
        assert Owns(o, c, o.connections[c]);
      }
    } else {
      assert forall w :: IsOpen(o', w) ==> IsOpen(o, w) && Held(o, w);
      assert forall c :: c in o.connections ==> Owns(o, c, o.connections[c]);
    }
  }

  /** While shutting down, every connection that still has a writer is still to be visited. */
  ghost predicate ShutdownInv(s: State) {
    && (s.phase.Shutting? ==>
          forall c :: c in s.core.out.connections && s.core.out.connections[c].writer.Some? ==> c in s.phase.todo)
    && (s.phase.Stopped? ==> forall c :: c in s.core.out.connections ==> s.core.out.connections[c].writer.None?)
  }

  lemma {:induction false} RunKeepsFiles(env: Env, actions: seq<Action>)
    requires IsRun(env, actions)
    ensures FilesInv(env, After(env, actions).core.out) && ShutdownInv(After(env, actions))
  {
    if actions == [] {
    } else {
      var n := |actions| - 1;
      RunSplits(env, actions);
      RunKeepsFiles(env, actions[..n]);
      StepKeepsFiles(env, After(env, actions[..n]), actions[n]);
    }
  }

  lemma StepKeepsFiles(env: Env, s: State, a: Action)
    requires Enabled(s, a)
    requires FilesInv(env, s.core.out) && ShutdownInv(s)
    ensures FilesInv(env, Step(env, s, a).core.out) && ShutdownInv(Step(env, s, a))
  {
    StepOutput(env, s, a);
    if a.Receive? && InetDiag.Parses(RawOf(a.record)) {
      QueueKeepsFiles(env, s.core.out, a.record);
    }
    if a.ExpireOne? || a.CloseOne? {
      EndConnKeepsFiles(env, s.core.out, a.cookie);
    }
  }

  /**
    In every run, whichever files fail to open: no writer gets more than one close task, none gets a task
    before it is opened or after its close task, and once the saver has stopped each has got exactly one.
   */
  lemma EveryFileIsClosedOnce(env: Env, actions: seq<Action>, w: nat)
    requires IsRun(env, actions)
    ensures
      var s := After(env, actions);
      && Protocol(env.channels, s.core.out.files, s.core.out.effects)
      && |s.core.out.files| == Opens(s.core.out.effects)
      && (Closes(s.core.out.effects, w) > 0 ==> w < |s.core.out.files|)
      && Closes(s.core.out.effects, w) <= 1
      && (s.phase.Stopped? && w < |s.core.out.files| ==> Closes(s.core.out.effects, w) == 1)
  {
    RunKeepsFiles(env, actions);
    var s := After(env, actions);
    var o := s.core.out;
    ClosedWereOpened(env.channels, o.files, o.effects, w);
    assert IsOpen(o, w) ==> Held(o, w);
  }
}
