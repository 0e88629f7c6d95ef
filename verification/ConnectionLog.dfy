/** All files of a connection, read in the order of opening: what ends up in them. */
module ConnectionLog {
  import opened Bytes
  import InetDiag
  import opened Archival
  import opened Cache
  import opened SaverModel
  import opened Files
  import opened Pipeline
  import DeltaLog
  import opened SmallRuns

  // ---------------------------------------------------------------- records go to the newest file

  /** Of the first opened files, none after w is for the same connection. */
  predicate IsNewest(files: seq<Metadata>, count: nat, w: nat) {
    w < |files| && forall v :: w < v < count && v < |files| ==> files[v].cookie != files[w].cookie
  }

  /** Every record goes to what is then the newest file of its connection. */
  predicate ToNewest(files: seq<Metadata>, es: seq<Effect>) {
    es == [] ||
    (var init, last := es[..|es| - 1], es[|es| - 1];
     ToNewest(files, init) && (last.Queued? ==> IsNewest(files, Opens(init), last.writer)))
  }

  ghost predicate NewestInv(o: Output) {
    && ToNewest(o.files, o.effects)
    && forall c :: c in o.connections && o.connections[c].writer.Some? ==>
         IsNewest(o.files, |o.files|, o.connections[c].writer.value)
  }

  lemma ToNewestSnoc(files: seq<Metadata>, es: seq<Effect>, e: Effect)
    ensures ToNewest(files, es + [e]) <==>
      ToNewest(files, es) && (e.Queued? ==> IsNewest(files, Opens(es), e.writer))
  {
    assert (es + [e])[..|es|] == es;
  }

  lemma {:induction false} ToNewestMoreFiles(files: seq<Metadata>, es: seq<Effect>, header: Metadata)
    requires ToNewest(files, es) && Opens(es) <= |files|
    ensures ToNewest(files + [header], es)
  {
    if es == [] {
    } else {
      ToNewestMoreFiles(files, es[..|es| - 1], header);
    }
  }

  lemma RetiredKeepsNewest(env: Env, o: Output, cookie: U64)
    requires NewestInv(o) && cookie in o.connections
    ensures NewestInv(Retired(env, o, cookie))
  {
    var o' := Retired(env, o, cookie);
    if o'.effects != o.effects {
      var e := o'.effects[|o.effects|];
      assert o'.effects == o.effects + [e] && !e.Queued?;
      ToNewestSnoc(o.files, o.effects, e);
    }
    forall c | c in o'.connections && o'.connections[c].writer.Some?
      ensures IsNewest(o'.files, |o'.files|, o'.connections[c].writer.value)
    {
      assert o.connections[c].writer == o'.connections[c].writer;
    }
  }

  lemma RotatedKeepsNewest(env: Env, o: Output, cookie: U64)
    requires FilesInv(env, o) && NewestInv(o) && cookie in o.connections
    ensures NewestInv(Rotated(env, o, cookie))
  {
    var o' := Rotated(env, o, cookie);
    assert Owns(o, cookie, o.connections[cookie]);
    if o'.files != o.files {
      var w0 := |o.files|;
      var header := o'.files[w0];
      ToNewestMoreFiles(o.files, o.effects, header);
      ToNewestSnoc(o'.files, o.effects, Opened(w0));
      forall c | c in o'.connections && o'.connections[c].writer.Some?
        ensures IsNewest(o'.files, |o'.files|, o'.connections[c].writer.value)
      {
        assert Owns(o, c, o.connections[c]);
      }
    }
  }

  lemma QueueKeepsNewest(env: Env, o: Output, msg: CachedRecord)
    requires FilesInv(env, o) && NewestInv(o)
    ensures NewestInv(Queue(env, o, msg))
  {
    var c := CookieOf(msg);
    if c == 0 {
      ToNewestSnoc(o.files, o.effects, Dropped(msg));
    } else {
      var o1 := Ensured(env, o, msg);
      EnsuredKeeps(env, o, msg);
      var o2 := Retired(env, o1, c);
      RetiredKeeps(env, o1, c);
      RetiredKeepsNewest(env, o1, c);
      var o3 := Rotated(env, o2, c);
      RotatedKeeps(env, o2, c);
      RotatedKeepsNewest(env, o2, c);
      var w := o3.connections[c].writer;
      ToNewestSnoc(o3.files, o3.effects, if w.None? then Dropped(msg) else Queued(ChannelOf(env, c), w.value, msg));
    }
  }

  lemma EndConnKeepsNewest(env: Env, o: Output, cookie: U64)
    requires NewestInv(o)
    ensures NewestInv(EndConn(env, o, cookie))
  {
    if cookie in o.connections && o.connections[cookie].writer.Some? {
      ToNewestSnoc(o.files, o.effects, CloseQueued(ChannelOf(env, cookie), o.connections[cookie].writer.value));
    }
  }

  lemma {:induction false} RunKeepsNewest(env: Env, actions: seq<Action>)
    requires IsRun(env, actions)
    ensures NewestInv(After(env, actions).core.out)
  {
    if actions == [] {
    } else {
      var n := |actions| - 1;
      RunSplits(env, actions);
      RunKeepsNewest(env, actions[..n]);
      RunKeepsFiles(env, actions[..n]);
      var s, a := After(env, actions[..n]), actions[n];
      StepOutput(env, s, a);
      if a.Receive? && InetDiag.Parses(RawOf(a.record)) {
        QueueKeepsNewest(env, s.core.out, a.record);
      }
      if a.ExpireOne? || a.CloseOne? {
        EndConnKeepsNewest(env, s.core.out, a.cookie);
      }
    }
  }

  // ---------------------------------------------------------------- all files of a connection together

  function Concat(pieces: seq<seq<Line>>): seq<Line> {
    if pieces == [] then [] else Concat(pieces[..|pieces| - 1]) + pieces[|pieces| - 1]
  }

  lemma ConcatSnoc(pieces: seq<seq<Line>>, piece: seq<Line>)
    ensures Concat(pieces + [piece]) == Concat(pieces) + piece
  {
    assert (pieces + [piece])[..|pieces|] == pieces;
  }

  /** What is added to the last piece with anything in it comes last. */
  lemma {:induction false} ConcatGrows(pieces: seq<seq<Line>>, w: nat, more: seq<Line>)
    requires w < |pieces| && forall v :: w < v < |pieces| ==> pieces[v] == []
    ensures Concat(pieces[w := pieces[w] + more]) == Concat(pieces) + more
  {
    var n := |pieces| - 1;
    var init := pieces[..n];
    if w == n {
      assert pieces[w := pieces[w] + more] == init + [pieces[w] + more];
      ConcatSnoc(init, pieces[w] + more);
      AppendAssociates(Concat(init), pieces[w], more);
    } else {
      ConcatGrows(init, w, more);
      assert pieces[w := pieces[w] + more] == init[w := init[w] + more] + [pieces[n]];
      ConcatSnoc(init[w := init[w] + more], pieces[n]);
    }
  }

  /** The lines queued to a file, if it is one of the connection. */
  function InFile(anon: InetDiag.Anonymizer, files: seq<Metadata>, es: seq<Effect>, cookie: U64, w: nat): seq<Line>
    requires w < |files|
  {
    if files[w].cookie == cookie then QueuedLines(anon, es, w) else []
  }

  /** The lines queued to each of the first n files, those of one connection. */
  function FileByFile(
    anon: InetDiag.Anonymizer, files: seq<Metadata>, es: seq<Effect>, cookie: U64, n: nat): seq<seq<Line>>
    requires n <= |files|
  {
    seq(n, w requires 0 <= w < |files| => InFile(anon, files, es, cookie, w))
  }

  /** The lines that the records queued for a connection amount to, in order of queueing. */
  function QueuedFor(anon: InetDiag.Anonymizer, es: seq<Effect>, cookie: U64): seq<Line> {
    if es == [] then []
    else QueuedFor(anon, es[..|es| - 1], cookie) + Added(anon, es[|es| - 1], cookie)
  }

  function Added(anon: InetDiag.Anonymizer, e: Effect, cookie: U64): seq<Line> {
    if e.Queued? && CookieOf(e.message) == cookie then LinesOf(anon, e.message) else []
  }

  lemma AppendNothing(lines: seq<Line>)
    ensures lines + [] == lines
  {
  }

  lemma {:induction false} NothingQueuedYet(
    n: Positive, anon: InetDiag.Anonymizer, files: seq<Metadata>, es: seq<Effect>, w: nat)
    requires Protocol(n, files, es) && w >= Opens(es)
    ensures QueuedLines(anon, es, w) == []
  {
    if es == [] {
    } else {
      NothingQueuedYet(n, anon, files, es[..|es| - 1], w);
    }
  }

  /** What one effect does to what was queued to a file. */
  lemma InFileAfter(
    n: Positive, anon: InetDiag.Anonymizer, files: seq<Metadata>, es: seq<Effect>, cookie: U64, w: nat)
    requires es != [] && Protocol(n, files, es) && w < |files|
    ensures
      var init, last := es[..|es| - 1], es[|es| - 1];
      InFile(anon, files, es, cookie, w) ==
        InFile(anon, files, init, cookie, w) +
        if last.Queued? && last.writer == w then Added(anon, last, cookie) else []
  {
    var init, last := es[..|es| - 1], es[|es| - 1];
    assert EffectOk(n, files, init, last);
    AppendNothing(InFile(anon, files, init, cookie, w));
  }

  /** A record is added to one file. */
  lemma QueuedToOne(n: Positive, anon: InetDiag.Anonymizer, files: seq<Metadata>, es: seq<Effect>, cookie: U64)
    requires es != [] && Protocol(n, files, es) && Opens(es) <= |files| && es[|es| - 1].Queued?
    ensures
      var init, last, count := es[..|es| - 1], es[|es| - 1], Opens(es);
      var was, w := FileByFile(anon, files, init, cookie, count), last.writer;
      w < count && FileByFile(anon, files, es, cookie, count) == was[w := was[w] + Added(anon, last, cookie)]
  {
    var init, last, count := es[..|es| - 1], es[|es| - 1], Opens(es);
    assert EffectOk(n, files, init, last);
    var was, now := FileByFile(anon, files, init, cookie, count), FileByFile(anon, files, es, cookie, count);
    var w := last.writer;
    forall v: nat | v < count ensures now[v] == if v == w then was[v] + Added(anon, last, cookie) else was[v] {
      InFileAfter(n, anon, files, es, cookie, v);
      AppendNothing(was[v]);
    }
  }

  /** A record queued to the newest file of its connection comes last. */
  lemma QueuedComesLast(n: Positive, anon: InetDiag.Anonymizer, files: seq<Metadata>, es: seq<Effect>, cookie: U64)
    requires es != [] && Protocol(n, files, es) && Opens(es) <= |files| && ToNewest(files, es)
    requires es[|es| - 1].Queued? && CookieOf(es[|es| - 1].message) == cookie
    ensures
      var init, last := es[..|es| - 1], es[|es| - 1];
      Concat(FileByFile(anon, files, es, cookie, Opens(es))) ==
        Concat(FileByFile(anon, files, init, cookie, Opens(es))) + Added(anon, last, cookie)
  {
    var init, last, count := es[..|es| - 1], es[|es| - 1], Opens(es);
    assert EffectOk(n, files, init, last);
    var was, now := FileByFile(anon, files, init, cookie, count), FileByFile(anon, files, es, cookie, count);
    var w := last.writer;
    QueuedToOne(n, anon, files, es, cookie);
    forall v | w < v < count ensures was[v] == [] {
      assert files[v].cookie != files[w].cookie;
    }
    ConcatGrows(was, w, Added(anon, last, cookie));
    assert now == was[w := was[w] + Added(anon, last, cookie)];
  }

  /** Any other effect leaves the files of the connection as they are. */
  lemma OthersLeaveFiles(n: Positive, anon: InetDiag.Anonymizer, files: seq<Metadata>, es: seq<Effect>, cookie: U64)
    requires es != [] && Protocol(n, files, es) && Opens(es) <= |files|
    requires !(es[|es| - 1].Queued? && CookieOf(es[|es| - 1].message) == cookie)
    ensures FileByFile(anon, files, es, cookie, Opens(es)) == FileByFile(anon, files, es[..|es| - 1], cookie, Opens(es))
  {
    var init, count := es[..|es| - 1], Opens(es);
    forall v: nat | v < count ensures InFile(anon, files, es, cookie, v) == InFile(anon, files, init, cookie, v) {
      InFileAfter(n, anon, files, es, cookie, v);
      AppendNothing(InFile(anon, files, init, cookie, v));
    }
  }

  /** A file that has just been opened adds nothing yet. */
  lemma OpenedIsEmpty(n: Positive, anon: InetDiag.Anonymizer, files: seq<Metadata>, es: seq<Effect>, cookie: U64)
    requires Protocol(n, files, es) && Opens(es) < |files|
    ensures
      Concat(FileByFile(anon, files, es, cookie, Opens(es) + 1)) ==
      Concat(FileByFile(anon, files, es, cookie, Opens(es)))
  {
    var count := Opens(es);
    NothingQueuedYet(n, anon, files, es, count);
    var pieces := FileByFile(anon, files, es, cookie, count);
    assert FileByFile(anon, files, es, cookie, count + 1) == pieces + [[]];
    ConcatSnoc(pieces, []);
    AppendNothing(Concat(pieces));
  }

  lemma {:induction false} FilesHoldWhatWasQueued(
    n: Positive, anon: InetDiag.Anonymizer, files: seq<Metadata>, es: seq<Effect>, cookie: U64)
    requires Protocol(n, files, es) && Opens(es) <= |files| && ToNewest(files, es)
    ensures Concat(FileByFile(anon, files, es, cookie, Opens(es))) == QueuedFor(anon, es, cookie)
  {
    if es == [] {
    } else {
      var init, last := es[..|es| - 1], es[|es| - 1];
      FilesHoldWhatWasQueued(n, anon, files, init, cookie);
      if last.Opened? {
        OpenedIsEmpty(n, anon, files, init, cookie);
      }
      if last.Queued? && CookieOf(last.message) == cookie {
        QueuedComesLast(n, anon, files, es, cookie);
      } else {
        OthersLeaveFiles(n, anon, files, es, cookie);
        AppendNothing(QueuedFor(anon, init, cookie));
      }
    }
  }

  /** What is in a file behind its header, if it is one of the connection. */
  function Records(files: seq<Metadata>, writers: seq<Writer>, cookie: U64, w: nat): seq<Line>
    requires w < |files| == |writers|
  {
    if files[w].cookie == cookie && writers[w].lines != [] then writers[w].lines[1..] else []
  }

  /** The records in the files of a connection, file after file in order of opening. */
  function LogOf(files: seq<Metadata>, writers: seq<Writer>, cookie: U64): seq<Line>
    requires |files| == |writers|
  {
    Concat(seq(|files|, w requires 0 <= w < |files| => Records(files, writers, cookie, w)))
  }

  lemma BehindTheHeader(job: Job, cookie: U64, w: nat)
    requires Good(job) && w < |job.files|
    ensures Records(job.files, FinalFiles(job), cookie, w) == InFile(job.anon, job.files, job.effects, cookie, w)
  {
    var queued := QueuedLines(job.anon, job.effects, w);
    assert ([HeaderLine(job.files[w])] + queued)[1..] == queued;
  }

  lemma LogIsFileByFile(job: Job, cookie: U64)
    requires Good(job)
    ensures LogOf(job.files, FinalFiles(job), cookie) ==
      Concat(FileByFile(job.anon, job.files, job.effects, cookie, |job.files|))
  {
    var files, writers, n := job.files, FinalFiles(job), |job.files|;
    forall w: nat | w < n
      ensures Records(files, writers, cookie, w) == InFile(job.anon, files, job.effects, cookie, w)
    {
      BehindTheHeader(job, cookie, w);
    }
    assert seq(n, w requires 0 <= w < n => Records(files, writers, cookie, w)) ==
      FileByFile(job.anon, files, job.effects, cookie, n);
  }

  /**
    Whenever the channels are drained, in whatever order that happened, the files of a connection, read one after the
    other in order of opening, hold exactly the records queued for the connection, anonymized, in order of queueing.
   */
  lemma LogIsWhatWasQueued(
    env: Env, actions: seq<Action>, anon: InetDiag.Anonymizer, choices: seq<Choice>, cookie: U64)
    requires IsRun(env, actions)
    ensures
      var job := JobOf(env, After(env, actions).core.out, anon);
      && Good(job)
      && (Schedule(job, choices).Some? && Complete(job, Schedule(job, choices).value) ==>
            && var p := Schedule(job, choices).value;
            && |p.writers| == |job.files|
            && LogOf(job.files, p.writers, cookie) == QueuedFor(anon, job.effects, cookie))
  {
    RunsMakeGoodJobs(env, actions, anon);
    RunKeepsNewest(env, actions);
    var job := JobOf(env, After(env, actions).core.out, anon);
    if Schedule(job, choices).Some? && Complete(job, Schedule(job, choices).value) {
      ScheduleDoesNotMatter(job, choices);
      LogIsFileByFile(job, cookie);
      FilesHoldWhatWasQueued(job.n, anon, job.files, job.effects, cookie);
    }
  }

  // ---------------------------------------------------------------- the newest record is in the log

  /** A record that a marshaller can anonymize. */
  predicate KnownFamily(r: CachedRecord) {
    RawOf(r)[0] in {2, 10}
  }

  /** The record as a marshaller writes it. */
  function Anonymized(anon: InetDiag.Anonymizer, r: CachedRecord): CachedRecord
    requires KnownFamily(r)
  {
    var raw := InetDiag.Anonymize(anon, RawOf(r)).raw;
    assert InfoOf(r.(rawIDM := Some(raw))) == InfoOf(r);
    r.(rawIDM := Some(raw))
  }

  /** A queued record leaves a line exactly when its family is known. */
  lemma LinesExact(anon: InetDiag.Anonymizer, r: CachedRecord)
    ensures LinesOf(anon, r) == if KnownFamily(r) then [RecordLine(Anonymized(anon, r))] else []
  {
  }

  lemma {:induction false} LogEndsWithLastTry(anon: InetDiag.Anonymizer, es: seq<Effect>, cookie: U64)
    requires
      var tried := DeltaLog.LastTry(es, cookie);
      tried.Some? && tried.value.Queued? && KnownFamily(tried.value.message)
    ensures
      var log := QueuedFor(anon, es, cookie);
      log != [] && log[|log| - 1] == RecordLine(Anonymized(anon, DeltaLog.LastTry(es, cookie).value.message))
  {
    var init, last := es[..|es| - 1], es[|es| - 1];
    if DeltaLog.Tries(last, cookie) {
      LinesExact(anon, last.message);
      assert QueuedFor(anon, es, cookie) ==
        QueuedFor(anon, init, cookie) + [RecordLine(Anonymized(anon, last.message))];
    } else {
      LogEndsWithLastTry(anon, init, cookie);
      AppendNothing(QueuedFor(anon, init, cookie));
    }
  }

  lemma SimilarThroughAnonymizing(anon: InetDiag.Anonymizer, a: CachedRecord, b: CachedRecord)
    requires DeltaLog.Similar(a, b) && KnownFamily(b)
    ensures DeltaLog.Similar(a, Anonymized(anon, b))
  {
    var b' := Anonymized(anon, b);
    assert SameButAddresses(b, b');
    if Unchanged(a, b) {
      AddressesDoNotMatter(a, a, b, b');
    }
  }

  /** The last line is a record like this one, up to addresses and ignored fields. */
  predicate EndsLike(log: seq<Line>, r: CachedRecord) {
    && log != [] && log[|log| - 1].RecordLine?
    && var last := log[|log| - 1].record;
       InetDiag.Parses(RawOf(last)) && InfoLongEnough(last) && DeltaLog.Similar(r, last)
  }

  /** The last record of this cookie handed to queue is msg, and it was queued. */
  predicate QueuedLast(o: Output, cookie: U64, msg: CachedRecord) {
    var tried := DeltaLog.LastTry(o.effects, cookie);
    tried.Some? && tried.value.Queued? && tried.value.message == msg
  }

  lemma NewestIsQueuedLast(env: Env, actions: seq<Action>, anon: InetDiag.Anonymizer, cookie: U64, msg: CachedRecord)
    requires IsRun(env, actions) && cookie in Known(After(env, actions).core.cache)
    requires QueuedLast(After(env, actions).core.out, cookie, msg) && KnownFamily(msg)
    ensures
      var s := After(env, actions);
      EndsLike(QueuedFor(anon, s.core.out.effects, cookie), Newest(s.core.cache, cookie))
  {
    var s := After(env, actions);
    DeltaLog.DeltaLogIsLossless(env, actions, cookie);
    LogEndsWithLastTry(anon, s.core.out.effects, cookie);
    SimilarThroughAnonymizing(anon, Newest(s.core.cache, cookie), msg);
  }

  /**
    Whenever the channels are drained: for a cached cookie whose last record handed to queue was queued and has a known
    family, the last record in its files equals its newest record up to addresses and ignored fields.
   */
  lemma NewestIsInTheLog(
    env: Env, actions: seq<Action>, anon: InetDiag.Anonymizer, choices: seq<Choice>, cookie: U64, msg: CachedRecord)
    requires IsRun(env, actions) && cookie in Known(After(env, actions).core.cache)
    requires QueuedLast(After(env, actions).core.out, cookie, msg) && KnownFamily(msg)
    ensures
      var s := After(env, actions);
      var job := JobOf(env, s.core.out, anon);
      && Good(job)
      && (Schedule(job, choices).Some? && Complete(job, Schedule(job, choices).value) ==>
            && var p := Schedule(job, choices).value;
            && |p.writers| == |job.files|
            && EndsLike(LogOf(job.files, p.writers, cookie), Newest(s.core.cache, cookie)))
  {
    LogIsWhatWasQueued(env, actions, anon, choices, cookie);
    NewestIsQueuedLast(env, actions, anon, cookie, msg);
  }

  /** One block with one record is such a run, if the file opens. */
  lemma FirstRecordIsQueued(env: Env, r: CachedRecord, t: Time)
    requires CookieOf(r) != 0 && env.opens(0)
    ensures
      var run := OneRecord([], r, t);
      && IsRun(env, run) && CookieOf(r) in Known(After(env, run).core.cache)
      && QueuedLast(After(env, run).core.out, CookieOf(r), r)
  {
    OneRecordRuns(env, [], r, t);
    DeltaLog.QueueOutcome(env, NO_OUTPUT, r);
  }
}
