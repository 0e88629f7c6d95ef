/**
  The marshallers, running in any interleaving with the saver.

  The saver's effects are carried out one by one: a file is opened and its header written at once, a task is
  sent to a bounded channel. Between any two of them, any marshaller may take and handle its next task.
 */
module Pipeline {
  import opened Bytes
  import InetDiag
  import opened Archival
  import opened Cache
  import opened SaverModel
  import opened Files

  /** Capacity of a task channel. */
  const CAPACITY := 100

  /** No message means: close the writer. */
  datatype Task = Task(writer: nat, message: Option<CachedRecord>)

  datatype Line = HeaderLine(header: Metadata) | RecordLine(record: ArchivalRecord)

  datatype Writer = Writer(lines: seq<Line>, open: bool)

  /** The effects to carry out, the headers of the files they open, and the anonymizer. */
  datatype Job = Job(n: Positive, files: seq<Metadata>, effects: seq<Effect>, anon: InetDiag.Anonymizer)

  predicate Good(job: Job) {
    && Protocol(job.n, job.files, job.effects)
    && Opens(job.effects) == |job.files|
  }

  /**
    applied counts the effects carried out; handled is what each marshaller has taken from its channel.
    faults counts writes to, and closes of, a writer that is closed or does not exist.
   */
  datatype Pipe = Pipe(
    applied: nat, channels: seq<seq<Task>>, handled: seq<seq<Task>>, writers: seq<Writer>, faults: nat)

  datatype Choice = Apply | Handle(channel: nat)

  function TaskOf(e: Effect): Option<(nat, Task)> {
    match e
    case Queued(channel, w, msg) => Some((channel, Task(w, Some(msg))))
    case CloseQueued(channel, w) => Some((channel, Task(w, None)))
    case Opened(_) => None
    case Dropped(_) => None
  }

  function Start(job: Job): Pipe {
    Pipe(0, seq(job.n, _ => []), seq(job.n, _ => []), [], 0)
  }

  /** A send blocks while the channel is full; a marshaller waits while it is empty. */
  predicate CanMove(job: Job, p: Pipe, c: Choice) {
    match c
    case Apply =>
      && p.applied < |job.effects|
      && var t := TaskOf(job.effects[p.applied]);
         t.Some? ==> t.value.0 < |p.channels| && |p.channels[t.value.0]| < CAPACITY
    case Handle(k) => k < |p.channels| && p.channels[k] != []
  }

  /** The line a marshaller writes for a record; none when the record cannot be anonymized. */
  function LineOf(anon: InetDiag.Anonymizer, msg: CachedRecord): Option<Line> {
    match InetDiag.Anonymize(anon, RawOf(msg))
    case Err(_) => None
    case Ok(raw) => Some(RecordLine(msg.(rawIDM := Some(raw))))
  }

  function LinesOf(anon: InetDiag.Anonymizer, msg: CachedRecord): seq<Line> {
    match LineOf(anon, msg)
    case None => []
    case Some(line) => [line]
  }

  /** One round of runMarshaller. */
  ghost function Handled(job: Job, p: Pipe, t: Task): Pipe
    requires Good(job)
  {
    if t.writer >= |p.writers| then p.(faults := p.faults + 1)
    else
      var w := p.writers[t.writer];
      match t.message
      case None =>
        p.(writers := p.writers[t.writer := w.(open := false)], faults := p.faults + if w.open then 0 else 1)
      case Some(msg) =>
        var lines := LinesOf(job.anon, msg);
        p.(writers := p.writers[t.writer := w.(lines := w.lines + lines)],
           faults := p.faults + if w.open || lines == [] then 0 else 1)
  }

  ghost function Move(job: Job, p: Pipe, c: Choice): Pipe
    requires Good(job) && CanMove(job, p, c)
  {
    match c
    case Apply =>
      var p' := p.(applied := p.applied + 1);
      (match job.effects[p.applied]
       case Opened(w) =>
         if w < |job.files| then p'.(writers := p.writers + [Writer([HeaderLine(job.files[w])], true)])
         else p'.(faults := p.faults + 1)
       case Queued(k, w, msg) => p'.(channels := p.channels[k := p.channels[k] + [Task(w, Some(msg))]])
       case CloseQueued(k, w) => p'.(channels := p.channels[k := p.channels[k] + [Task(w, None)]])
       case Dropped(_) => p')
    case Handle(k) =>
      var t := p.channels[k][0];
      Handled(job, p, t).(
        channels := p.channels[k := p.channels[k][1..]],
        handled := if k < |p.handled| then p.handled[k := p.handled[k] + [t]] else p.handled)
  }

  /** The state after a schedule; None if some choice was not possible. */
  ghost function Schedule(job: Job, choices: seq<Choice>): Option<Pipe>
    requires Good(job)
  {
    if choices == [] then Some(Start(job))
    else
      var n := |choices| - 1;
      match Schedule(job, choices[..n])
      case None => None
      case Some(p) => if CanMove(job, p, choices[n]) then Some(Move(job, p, choices[n])) else None
  }

  // ---------------------------------------------------------------- what goes through a channel

  /** The tasks sent to one channel. */
  function TasksOn(es: seq<Effect>, k: nat): seq<Task> {
    if es == [] then []
    else
      var init := TasksOn(es[..|es| - 1], k);
      match TaskOf(es[|es| - 1])
      case None => init
      case Some((channel, t)) => if channel == k then init + [t] else init
  }

  function CloseTasks(tasks: seq<Task>, w: nat): nat {
    if tasks == [] then 0
    else
      var last := tasks[|tasks| - 1];
      CloseTasks(tasks[..|tasks| - 1], w) + if last.writer == w && last.message.None? then 1 else 0
  }

  /** The lines that a list of tasks adds to a writer. */
  function TaskLines(anon: InetDiag.Anonymizer, tasks: seq<Task>, w: nat): seq<Line> {
    if tasks == [] then []
    else
      var last := tasks[|tasks| - 1];
      TaskLines(anon, tasks[..|tasks| - 1], w) +
      if last.writer == w && last.message.Some? then LinesOf(anon, last.message.value) else []
  }

  /** The lines that the records queued to a writer amount to, in order. */
  function QueuedLines(anon: InetDiag.Anonymizer, es: seq<Effect>, w: nat): seq<Line> {
    if es == [] then []
    else
      var last := es[|es| - 1];
      QueuedLines(anon, es[..|es| - 1], w) +
      if last.Queued? && last.writer == w then LinesOf(anon, last.message) else []
  }

  function ChannelFor(job: Job, w: nat): (k: nat)
    requires w < |job.files|
    ensures k < job.n
  {
    job.files[w].cookie % job.n
  }

  lemma TaskSnoc(anon: InetDiag.Anonymizer, tasks: seq<Task>, t: Task, w: nat)
    ensures CloseTasks(tasks + [t], w) == CloseTasks(tasks, w) + if t.writer == w && t.message.None? then 1 else 0
    ensures TaskLines(anon, tasks + [t], w) ==
      TaskLines(anon, tasks, w) + if t.writer == w && t.message.Some? then LinesOf(anon, t.message.value) else []
  {
    assert (tasks + [t])[..|tasks|] == tasks;
  }

  lemma {:induction false} TaskLinesConcat(anon: InetDiag.Anonymizer, a: seq<Task>, b: seq<Task>, w: nat)
    ensures TaskLines(anon, a + b, w) == TaskLines(anon, a, w) + TaskLines(anon, b, w)
    ensures CloseTasks(a + b, w) == CloseTasks(a, w) + CloseTasks(b, w)
    decreases |b|
  {
    if b == [] {
      assert a + b == a;
    } else {
      var init, last := b[..|b| - 1], b[|b| - 1];
      TaskLinesConcat(anon, a, init, w);
      assert a + b == (a + init) + [last];
      TaskSnoc(anon, a + init, last, w);
      AppendAssociates(TaskLines(anon, a, w), TaskLines(anon, init, w),
        if last.writer == w && last.message.Some? then LinesOf(anon, last.message.value) else []);
    }
  }

  lemma EffectSnoc(job: Job, i: nat)
    requires Good(job) && i < |job.effects|
    ensures job.effects[..i + 1][..i] == job.effects[..i]
    ensures job.effects[..i + 1] == job.effects[..i] + [job.effects[i]]
  {
  }

  /** Every prefix of the effects keeps the protocol. */
  lemma {:induction false} PrefixOk(job: Job, i: nat)
    requires Good(job) && i <= |job.effects|
    ensures Protocol(job.n, job.files, job.effects[..i])
    ensures Opens(job.effects[..i]) <= |job.files|
    decreases |job.effects| - i
  {
    if i == |job.effects| {
      assert job.effects[..i] == job.effects;
    } else {
      PrefixOk(job, i + 1);
      EffectSnoc(job, i);
    }
  }

  lemma EffectInOrder(job: Job, i: nat)
    requires Good(job) && i < |job.effects|
    ensures EffectOk(job.n, job.files, job.effects[..i], job.effects[i])
  {
    PrefixOk(job, i + 1);
    EffectSnoc(job, i);
  }

  /** On its own channel a writer sees all its tasks. */
  lemma {:induction false} ChannelCarries(
    n: Positive, files: seq<Metadata>, anon: InetDiag.Anonymizer, es: seq<Effect>, w: nat)
    requires Protocol(n, files, es) && w < |files|
    ensures
      var tasks := TasksOn(es, files[w].cookie % n);
      CloseTasks(tasks, w) == Closes(es, w) && TaskLines(anon, tasks, w) == QueuedLines(anon, es, w)
  {
    if es == [] {
    } else {
      var init, last := es[..|es| - 1], es[|es| - 1];
      ChannelCarries(n, files, anon, init, w);
      assert EffectOk(n, files, init, last);
      var t := TaskOf(last);
      if t.Some? {
        TaskSnoc(anon, TasksOn(init, files[w].cookie % n), t.value.1, w);
      }
    }
  }

  /** A task on channel k for one of the first count writers, all of whose tasks are on k. */
  predicate Placed(n: Positive, files: seq<Metadata>, t: Task, k: nat, count: nat) {
    t.writer < count && t.writer < |files| && files[t.writer].cookie % n == k
  }

  lemma {:induction false} TasksArePlaced(n: Positive, files: seq<Metadata>, es: seq<Effect>, k: nat, i: nat)
    requires Protocol(n, files, es) && i < |TasksOn(es, k)|
    ensures Placed(n, files, TasksOn(es, k)[i], k, Opens(es))
  {
    var init, last := es[..|es| - 1], es[|es| - 1];
    assert EffectOk(n, files, init, last);
    if i < |TasksOn(init, k)| {
      TasksArePlaced(n, files, init, k, i);
    }
  }

  /** Before any task of a channel there is no close task for the same writer. */
  lemma {:induction false} TasksBeforeClose(
    n: Positive, files: seq<Metadata>, anon: InetDiag.Anonymizer, es: seq<Effect>, k: nat, i: nat)
    requires Protocol(n, files, es) && i < |TasksOn(es, k)|
    ensures CloseTasks(TasksOn(es, k)[..i], TasksOn(es, k)[i].writer) == 0
  {
    var init, last := es[..|es| - 1], es[|es| - 1];
    assert EffectOk(n, files, init, last);
    var before, tasks := TasksOn(init, k), TasksOn(es, k);
    assert tasks[..i] == before[..i];
    if i < |before| {
      TasksBeforeClose(n, files, anon, init, k, i);
    } else {
      assert before[..i] == before;
      ChannelCarries(n, files, anon, init, tasks[i].writer);
    }
  }

  lemma {:induction false} NoTasksFor(anon: InetDiag.Anonymizer, tasks: seq<Task>, w: nat)
    requires forall i :: 0 <= i < |tasks| ==> tasks[i].writer != w
    ensures CloseTasks(tasks, w) == 0 && TaskLines(anon, tasks, w) == []
  {
    if tasks == [] {
    } else {
      NoTasksFor(anon, tasks[..|tasks| - 1], w);
    }
  }

  // ---------------------------------------------------------------- the invariant

  /** What a writer looks like once its marshaller has handled some tasks. */
  ghost function WriterAfter(job: Job, w: nat, tasks: seq<Task>): Writer
    requires Good(job) && w < |job.files|
  {
    Writer([HeaderLine(job.files[w])] + TaskLines(job.anon, tasks, w), CloseTasks(tasks, w) == 0)
  }

  ghost predicate PipeShape(job: Job, p: Pipe) {
    && p.applied <= |job.effects| && p.faults == 0
    && |p.channels| == |p.handled| == job.n
    && |p.writers| == Opens(job.effects[..p.applied]) <= |job.files|
    && (forall k :: 0 <= k < job.n ==> p.handled[k] + p.channels[k] == TasksOn(job.effects[..p.applied], k))
    && (forall k :: 0 <= k < job.n ==> |p.channels[k]| <= CAPACITY)
  }

  ghost predicate PipeInv(job: Job, p: Pipe)
    requires Good(job)
  {
    && PipeShape(job, p)
    && forall w :: 0 <= w < |p.writers| ==> p.writers[w] == WriterAfter(job, w, p.handled[ChannelFor(job, w)])
  }

  lemma ApplyKeeps(job: Job, p: Pipe)
    requires Good(job) && PipeInv(job, p) && CanMove(job, p, Apply)
    ensures PipeInv(job, Move(job, p, Apply))
  {
    var i := p.applied;
    var p' := Move(job, p, Apply);
    EffectSnoc(job, i);
    EffectInOrder(job, i);
    PrefixOk(job, i + 1);
    forall k | 0 <= k < job.n ensures p'.handled[k] + p'.channels[k] == TasksOn(job.effects[..i + 1], k) {
      ApplySends(job, p, k);
    }
    if job.effects[i].Opened? {
      NewWriterIsBlank(job, p);
    }
  }

  lemma ApplySends(job: Job, p: Pipe, k: nat)
    requires Good(job) && PipeInv(job, p) && CanMove(job, p, Apply) && k < job.n
    ensures
      var p' := Move(job, p, Apply);
      && |p'.handled| == |p'.channels| == job.n
      && p'.handled[k] + p'.channels[k] == TasksOn(job.effects[..p.applied + 1], k)
  {
    var i := p.applied;
    EffectSnoc(job, i);
    EffectInOrder(job, i);
    var p', t := Move(job, p, Apply), TaskOf(job.effects[i]);
    assert p.handled[k] + p.channels[k] == TasksOn(job.effects[..i], k);
    if t.Some? && t.value.0 == k {
      assert p'.handled[k] + p'.channels[k] == p.handled[k] + p.channels[k] + [t.value.1];
    }
  }

  /** Nothing has been handled for a writer that is only now being opened. */
  lemma NewWriterIsBlank(job: Job, p: Pipe)
    requires Good(job) && PipeInv(job, p)
    requires |p.writers| < |job.files|
    ensures
      var w := |p.writers|;
      WriterAfter(job, w, p.handled[ChannelFor(job, w)]) == Writer([HeaderLine(job.files[w])], true)
  {
    var w := |p.writers|;
    var k := ChannelFor(job, w);
    var es := job.effects[..p.applied];
    var tasks := TasksOn(es, k);
    PrefixOk(job, p.applied);
    assert tasks == p.handled[k] + p.channels[k];
    forall i | 0 <= i < |p.handled[k]| ensures p.handled[k][i].writer != w {
      TasksArePlaced(job.n, job.files, es, k, i);
      assert tasks[i] == p.handled[k][i];
    }
    NoTasksFor(job.anon, p.handled[k], w);
  }

  /** The next task of a channel is for a writer that exists, belongs to the channel and is still open. */
  lemma NextTaskFits(job: Job, p: Pipe, k: nat)
    requires Good(job) && PipeInv(job, p) && CanMove(job, p, Handle(k))
    ensures
      var t := p.channels[k][0];
      && t.writer < |p.writers| && ChannelFor(job, t.writer) == k
      && CloseTasks(p.handled[k], t.writer) == 0 && p.writers[t.writer].open
  {
    var es := job.effects[..p.applied];
    var tasks := p.handled[k] + p.channels[k];
    var i := |p.handled[k]|;
    assert tasks == TasksOn(es, k);
    assert tasks[i] == p.channels[k][0] && tasks[..i] == p.handled[k];
    PrefixOk(job, p.applied);
    TasksArePlaced(job.n, job.files, es, k, i);
    TasksBeforeClose(job.n, job.files, job.anon, es, k, i);
  }

  /** A task moves from the channel to what has been handled. */
  lemma HandleMovesOne(job: Job, p: Pipe, k: nat)
    requires Good(job) && CanMove(job, p, Handle(k)) && |p.channels| == |p.handled|
    ensures
      var p' := Move(job, p, Handle(k));
      && p'.applied == p.applied && |p'.channels| == |p'.handled| == |p.channels| && |p'.writers| == |p.writers|
      && forall j :: 0 <= j < |p.channels| ==>
           p'.handled[j] + p'.channels[j] == p.handled[j] + p.channels[j] && |p'.channels[j]| <= |p.channels[j]|
  {
    var p' := Move(job, p, Handle(k));
    assert p.channels[k] == [p.channels[k][0]] + p.channels[k][1..];
    assert p'.handled[k] + p'.channels[k] == p.handled[k] + p.channels[k];
    assert forall j :: 0 <= j < |p.channels| && j != k ==>
      p'.handled[j] == p.handled[j] && p'.channels[j] == p.channels[j];
  }

  lemma HandleKeepsShape(job: Job, p: Pipe, k: nat)
    requires Good(job) && PipeInv(job, p) && CanMove(job, p, Handle(k))
    ensures PipeShape(job, Move(job, p, Handle(k)))
  {
    NextTaskFits(job, p, k);
    HandleMovesOne(job, p, k);
    var p' := Move(job, p, Handle(k));
    forall j | 0 <= j < job.n ensures p'.handled[j] + p'.channels[j] == TasksOn(job.effects[..p.applied], j) {
      assert p.handled[j] + p.channels[j] == TasksOn(job.effects[..p.applied], j);
    }
  }

  /** A writer after one more of its channel's tasks. */
  lemma WriterAfterNext(job: Job, w: nat, tasks: seq<Task>, t: Task)
    requires Good(job) && w < |job.files|
    ensures
      var was, now := WriterAfter(job, w, tasks), WriterAfter(job, w, tasks + [t]);
      && (t.writer != w ==> now == was)
      && (t.writer == w && t.message.None? ==> now == was.(open := false))
      && (t.writer == w && t.message.Some? ==> now == was.(lines := was.lines + LinesOf(job.anon, t.message.value)))
  {
    TaskSnoc(job.anon, tasks, t, w);
    if t.writer == w && t.message.Some? {
      AppendAssociates([HeaderLine(job.files[w])], TaskLines(job.anon, tasks, w), LinesOf(job.anon, t.message.value));
    }
  }

  lemma HandleKeeps(job: Job, p: Pipe, k: nat)
    requires Good(job) && PipeInv(job, p) && CanMove(job, p, Handle(k))
    ensures PipeInv(job, Move(job, p, Handle(k)))
  {
    HandleKeepsShape(job, p, k);
    NextTaskFits(job, p, k);
    var t := p.channels[k][0];
    var p' := Move(job, p, Handle(k));
    forall w | 0 <= w < |p'.writers|
      ensures p'.writers[w] == WriterAfter(job, w, p'.handled[ChannelFor(job, w)])
    {
      assert p.writers[w] == WriterAfter(job, w, p.handled[ChannelFor(job, w)]);
      WriterAfterNext(job, w, p.handled[k], t);
    }
  }

  lemma {:induction false} ScheduleKeeps(job: Job, choices: seq<Choice>)
    requires Good(job) && Schedule(job, choices).Some?
    ensures PipeInv(job, Schedule(job, choices).value)
  {
    if choices == [] {
      assert job.effects[..0] == [];
    } else {
      var n := |choices| - 1;
      ScheduleKeeps(job, choices[..n]);
      var p := Schedule(job, choices[..n]).value;
      match choices[n]
      case Apply => ApplyKeeps(job, p);
      case Handle(k) => HandleKeeps(job, p, k);
    }
  }

  // ---------------------------------------------------------------- results

  /** The lines of a file, with those still in its channel, are its header and the records queued to it. */
  ghost predicate ContentsRight(job: Job, p: Pipe, w: nat)
    requires Good(job) && p.applied <= |job.effects| && |p.channels| == job.n && w < |p.writers| <= |job.files|
  {
    var pending := p.channels[ChannelFor(job, w)];
    && p.writers[w].lines + TaskLines(job.anon, pending, w)
       == [HeaderLine(job.files[w])] + QueuedLines(job.anon, job.effects[..p.applied], w)
    && (p.writers[w].open <==> Closes(job.effects[..p.applied], w) == CloseTasks(pending, w))
  }

  lemma ContentsFromInvariant(job: Job, p: Pipe, w: nat)
    requires Good(job) && PipeInv(job, p) && w < |p.writers|
    ensures ContentsRight(job, p, w)
  {
    var k := ChannelFor(job, w);
    var es, done, pending := job.effects[..p.applied], p.handled[k], p.channels[k];
    var doneLines, pendingLines := TaskLines(job.anon, done, w), TaskLines(job.anon, pending, w);
    assert doneLines + pendingLines == QueuedLines(job.anon, es, w)
        && CloseTasks(done, w) + CloseTasks(pending, w) == Closes(es, w) by {
      PrefixOk(job, p.applied);
      ChannelCarries(job.n, job.files, job.anon, es, w);
      TaskLinesConcat(job.anon, done, pending, w);
      assert done + pending == TasksOn(es, k);
    }
    assert p.writers[w] == WriterAfter(job, w, done);
    AppendAssociates([HeaderLine(job.files[w])], doneLines, pendingLines);
  }

  /**
    At every moment of every schedule, a file holds its header and the records queued to it so far, in order,
    but for those still in its channel; and no marshaller has touched a closed writer.
   */
  lemma ContentsAtAnyTime(job: Job, choices: seq<Choice>, w: nat)
    requires Good(job) && Schedule(job, choices).Some?
    ensures
      var p := Schedule(job, choices).value;
      && p.faults == 0 && p.applied <= |job.effects|
      && |p.channels| == job.n && |p.writers| <= |job.files|
      && (w < |p.writers| ==> ContentsRight(job, p, w))
  {
    ScheduleKeeps(job, choices);
    var p := Schedule(job, choices).value;
    if w < |p.writers| {
      ContentsFromInvariant(job, p, w);
    }
  }

  /** Everything has been sent and handled. */
  predicate Complete(job: Job, p: Pipe) {
    p.applied == |job.effects| && forall k :: 0 <= k < |p.channels| ==> p.channels[k] == []
  }

  /** The files a job amounts to, without regard to any schedule. */
  ghost function FinalFiles(job: Job): seq<Writer>
    requires Good(job)
  {
    seq(|job.files|, w requires 0 <= w < |job.files| =>
      Writer([HeaderLine(job.files[w])] + QueuedLines(job.anon, job.effects, w), Closes(job.effects, w) == 0))
  }

  /** Every schedule that completes leaves the same files. */
  lemma ScheduleDoesNotMatter(job: Job, choices: seq<Choice>)
    requires Good(job) && Schedule(job, choices).Some?
    requires Complete(job, Schedule(job, choices).value)
    ensures Schedule(job, choices).value.writers == FinalFiles(job)
  {
    var p := Schedule(job, choices).value;
    assert job.effects[..p.applied] == job.effects;
    ScheduleKeeps(job, choices);
    forall w | 0 <= w < |job.files|
      ensures p.writers[w] == FinalFiles(job)[w]
    {
      ContentsAtAnyTime(job, choices, w);
      assert p.channels[ChannelFor(job, w)] == [];
    }
  }

  /** As long as something is left to do, somebody can do it: the bounded channels cannot deadlock. */
  lemma NoDeadlock(job: Job, choices: seq<Choice>) returns (next: Choice)
    requires Good(job) && Schedule(job, choices).Some?
    requires !Complete(job, Schedule(job, choices).value)
    ensures CanMove(job, Schedule(job, choices).value, next)
  {
    ScheduleKeeps(job, choices);
    var p := Schedule(job, choices).value;
    if p.applied < |job.effects| {
      EffectInOrder(job, p.applied);
      var t := TaskOf(job.effects[p.applied]);
      if t.Some? && |p.channels[t.value.0]| == CAPACITY {
        return Handle(t.value.0);
      }
      return Apply;
    }
    var k :| 0 <= k < |p.channels| && p.channels[k] != [];
    return Handle(k);
  }

  /** The saver waits exactly while the channel of its next task holds 100 tasks. */
  lemma SendWaits(job: Job, choices: seq<Choice>)
    requires Good(job) && Schedule(job, choices).Some?
    requires Schedule(job, choices).value.applied < |job.effects|
    ensures
      var p := Schedule(job, choices).value;
      var t := TaskOf(job.effects[p.applied]);
      && (t.Some? ==> t.value.0 < |p.channels| && |p.channels[t.value.0]| <= 100)
      && (!CanMove(job, p, Apply) <==> t.Some? && |p.channels[t.value.0]| == 100)
  {
    ScheduleKeeps(job, choices);
    EffectInOrder(job, Schedule(job, choices).value.applied);
  }

  function TotalLength(channels: seq<seq<Task>>): nat {
    if channels == [] then 0 else |channels[0]| + TotalLength(channels[1..])
  }

  lemma {:induction false} TotalLengthUpdate(channels: seq<seq<Task>>, k: nat, tasks: seq<Task>)
    requires k < |channels|
    ensures TotalLength(channels[k := tasks]) == TotalLength(channels) - |channels[k]| + |tasks|
  {
    if k == 0 {
      assert channels[k := tasks][1..] == channels[1..];
    } else {
      assert channels[k := tasks][1..] == channels[1..][k - 1 := tasks];
      TotalLengthUpdate(channels[1..], k - 1, tasks);
    }
  }

  /** Work left: two moves for an effect not yet carried out, one for a task in a channel. */
  function WorkLeft(job: Job, p: Pipe): int {
    2 * (|job.effects| - p.applied) + TotalLength(p.channels)
  }

  lemma MoveMakesProgress(job: Job, p: Pipe, c: Choice)
    requires Good(job) && CanMove(job, p, c)
    ensures WorkLeft(job, Move(job, p, c)) < WorkLeft(job, p)
  {
    match c
    case Apply =>
      var t := TaskOf(job.effects[p.applied]);
      if t.Some? {
        TotalLengthUpdate(p.channels, t.value.0, p.channels[t.value.0] + [t.value.1]);
      }
    case Handle(k) =>
      TotalLengthUpdate(p.channels, k, p.channels[k][1..]);
  }

  lemma {:induction false} NothingQueued(n: nat)
    ensures TotalLength(seq(n, _ => [])) == 0
  {
    if n == 0 {
    } else {
      NothingQueued(n - 1);
      var none: seq<seq<Task>> := seq(n - 1, _ => []);
      assert seq(n, _ => [])[1..] == none;
    }
  }

  /** Every schedule comes to an end within two moves per effect. */
  lemma {:induction false} SchedulesAreFinite(job: Job, choices: seq<Choice>)
    requires Good(job) && Schedule(job, choices).Some?
    ensures |choices| + WorkLeft(job, Schedule(job, choices).value) <= 2 * |job.effects|
    ensures |choices| <= 2 * |job.effects|
  {
    if choices == [] {
      NothingQueued(job.n);
    } else {
      var n := |choices| - 1;
      SchedulesAreFinite(job, choices[..n]);
      MoveMakesProgress(job, Schedule(job, choices[..n]).value, choices[n]);
    }
    ScheduleKeeps(job, choices);
  }

  // ---------------------------------------------------------------- the saver and its marshallers

  function JobOf(env: Env, o: Output, anon: InetDiag.Anonymizer): Job {
    Job(env.channels, o.files, o.effects, anon)
  }

  lemma RunsMakeGoodJobs(env: Env, actions: seq<Action>, anon: InetDiag.Anonymizer)
    requires IsRun(env, actions)
    ensures Good(JobOf(env, After(env, actions).core.out, anon))
  {
    RunKeepsFiles(env, actions);
  }

  /** What ContentsAtAnyTime says of jobs holds of every run of the saver, at every moment of it. */
  lemma FilesAtAnyTime(env: Env, actions: seq<Action>, anon: InetDiag.Anonymizer, choices: seq<Choice>, w: nat)
    requires IsRun(env, actions)
    ensures
      var job := JobOf(env, After(env, actions).core.out, anon);
      && Good(job)
      && (Schedule(job, choices).Some? ==>
            && var p := Schedule(job, choices).value;
            && p.faults == 0 && p.applied <= |job.effects|
            && |p.channels| == job.n && |p.writers| <= |job.files|
            && (w < |p.writers| ==> ContentsRight(job, p, w)))
  {
    RunsMakeGoodJobs(env, actions, anon);
    var job := JobOf(env, After(env, actions).core.out, anon);
    if Schedule(job, choices).Some? {
      ContentsAtAnyTime(job, choices, w);
    }
  }

  /**
    Once the saver has stopped and the channels are drained, in whatever order that happened, every file is
    closed and holds its header followed by exactly the records queued to it, anonymized, in order.
   */
  lemma SavedFilesAreComplete(env: Env, actions: seq<Action>, anon: InetDiag.Anonymizer, choices: seq<Choice>)
    requires IsRun(env, actions) && After(env, actions).phase.Stopped?
    ensures
      var job := JobOf(env, After(env, actions).core.out, anon);
      && Good(job)
      && (Schedule(job, choices).Some? && Complete(job, Schedule(job, choices).value) ==>
            && var p := Schedule(job, choices).value;
            && p.faults == 0
            && |p.writers| == |job.files|
            && forall w :: 0 <= w < |job.files| ==>
                 p.writers[w] == Writer([HeaderLine(job.files[w])] + QueuedLines(job.anon, job.effects, w), false))
  {
    RunsMakeGoodJobs(env, actions, anon);
    var job := JobOf(env, After(env, actions).core.out, anon);
    if Schedule(job, choices).Some? && Complete(job, Schedule(job, choices).value) {
      ScheduleDoesNotMatter(job, choices);
      ContentsAtAnyTime(job, choices, 0);
      forall w: nat | w < |job.files| ensures Closes(job.effects, w) == 1 {
        EveryFileIsClosedOnce(env, actions, w);
      }
    }
  }
}
