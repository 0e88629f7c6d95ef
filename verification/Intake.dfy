/** Which messages reach the saver: the records of all blocks, v4 before v6, in the order of the messages. */
module Intake {
  import opened Bytes
  import opened Archival
  import opened SaverModel

  /** One collection cycle: messages may be nil. */
  datatype MessageBlock = MessageBlock(
    v4Time: Time, v4: seq<Option<NetlinkMessage>>, v6Time: Time, v6: seq<Option<NetlinkMessage>>)

  /** A record, and the number of blocks that ended before it was received. */
  datatype Arrival = Arrival(block: nat, record: ArchivalRecord)

  // ---------------------------------------------------------------- messages to records

  /** The record that handleType makes of a message, if any. */
  function RecordFrom(isLocal: seq<Byte> -> bool, t: Time, msg: Option<NetlinkMessage>): Option<ArchivalRecord> {
    if msg.None? then None
    else match RecordOf(isLocal, msg.value, true)
      case Made(r) => Some(r.(timestamp := t))
      case _ => None
  }

  function Arrived(block: nat, r: Option<ArchivalRecord>): seq<Arrival> {
    match r
    case None => []
    case Some(x) => [Arrival(block, x)]
  }

  function RecordsFrom(
    isLocal: seq<Byte> -> bool, block: nat, t: Time, msgs: seq<Option<NetlinkMessage>>): seq<Arrival>
  {
    if msgs == [] then []
    else
      var n := |msgs| - 1;
      RecordsFrom(isLocal, block, t, msgs[..n]) + Arrived(block, RecordFrom(isLocal, t, msgs[n]))
  }

  function RecordsInBlock(isLocal: seq<Byte> -> bool, block: nat, b: MessageBlock): seq<Arrival> {
    RecordsFrom(isLocal, block, b.v4Time, b.v4) + RecordsFrom(isLocal, block, b.v6Time, b.v6)
  }

  function RecordsInBlocks(isLocal: seq<Byte> -> bool, blocks: seq<MessageBlock>): seq<Arrival> {
    if blocks == [] then []
    else
      var n := |blocks| - 1;
      RecordsInBlocks(isLocal, blocks[..n]) + RecordsInBlock(isLocal, n, blocks[n])
  }

  /** Messages that the source parses without panicking, into records that Compare can handle. */
  predicate InDomain(isLocal: seq<Byte> -> bool, msg: Option<NetlinkMessage>) {
    msg.Some? ==>
      var r := RecordOf(isLocal, msg.value, true);
      !r.MakePanic? && (r.Made? ==> InfoLongEnough(r.record))
  }

  predicate BlockInDomain(isLocal: seq<Byte> -> bool, b: MessageBlock) {
    && (forall i :: 0 <= i < |b.v4| ==> InDomain(isLocal, b.v4[i]))
    && (forall i :: 0 <= i < |b.v6| ==> InDomain(isLocal, b.v6[i]))
  }

  // ---------------------------------------------------------------- what a run was about

  /** The times of the blocks that a run went through. */
  function BlockTimes(actions: seq<Action>): seq<Time> {
    if actions == [] then []
    else
      var last := actions[|actions| - 1];
      BlockTimes(actions[..|actions| - 1]) + if last.EndBlock? then [last.v4Time] else []
  }

  /** The records received in a run, in order. */
  function Arrivals(actions: seq<Action>): seq<Arrival> {
    if actions == [] then []
    else
      var init, last := actions[..|actions| - 1], actions[|actions| - 1];
      Arrivals(init) + if last.Receive? then [Arrival(|BlockTimes(init)|, last.record)] else []
  }

  function TimesOf(blocks: seq<MessageBlock>): seq<Time> {
    seq(|blocks|, i requires 0 <= i < |blocks| => blocks[i].v4Time)
  }

  lemma TimesSnoc(blocks: seq<MessageBlock>, i: nat)
    requires i < |blocks|
    ensures TimesOf(blocks[..i + 1]) == TimesOf(blocks[..i]) + [blocks[i].v4Time]
  {
  }

  lemma RecordsFromNext(
    isLocal: seq<Byte> -> bool, block: nat, t: Time, msgs: seq<Option<NetlinkMessage>>, i: nat, earlier: seq<Arrival>)
    requires i < |msgs|
    ensures
      earlier + RecordsFrom(isLocal, block, t, msgs[..i]) + Arrived(block, RecordFrom(isLocal, t, msgs[i])) ==
      earlier + RecordsFrom(isLocal, block, t, msgs[..i + 1])
  {
    assert msgs[..i + 1][..i] == msgs[..i];
    AppendAssociates(
      earlier, RecordsFrom(isLocal, block, t, msgs[..i]), Arrived(block, RecordFrom(isLocal, t, msgs[i])));
  }

  /** From before to after, a run has received the records of these messages, in one block. */
  predicate Came(
    isLocal: seq<Byte> -> bool, t: Time, msgs: seq<Option<NetlinkMessage>>, before: seq<Action>, after: seq<Action>)
  {
    && Arrivals(after) == Arrivals(before) + RecordsFrom(isLocal, |BlockTimes(before)|, t, msgs)
    && BlockTimes(after) == BlockTimes(before)
  }

  lemma CameNext(
    isLocal: seq<Byte> -> bool, t: Time, msgs: seq<Option<NetlinkMessage>>, i: nat,
    before: seq<Action>, until: seq<Action>, after: seq<Action>)
    requires i < |msgs| && Came(isLocal, t, msgs[..i], before, until)
    requires Arrivals(after) == Arrivals(until) + Arrived(|BlockTimes(until)|, RecordFrom(isLocal, t, msgs[i]))
    requires BlockTimes(after) == BlockTimes(until)
    ensures Came(isLocal, t, msgs[..i + 1], before, after)
  {
    RecordsFromNext(isLocal, |BlockTimes(before)|, t, msgs, i, Arrivals(before));
  }

  lemma ActionSnoc(actions: seq<Action>, a: Action)
    ensures Arrivals(actions + [a]) ==
      Arrivals(actions) + if a.Receive? then [Arrival(|BlockTimes(actions)|, a.record)] else []
    ensures BlockTimes(actions + [a]) == BlockTimes(actions) + if a.EndBlock? then [a.v4Time] else []
  {
    assert (actions + [a])[..|actions|] == actions;
  }

  /** A further action of a run, other than receiving a record or ending a block. */
  lemma QuietStep(env: Env, actions: seq<Action>, a: Action)
    requires IsRun(env, actions) && Enabled(After(env, actions), a) && !a.Receive? && !a.EndBlock?
    ensures IsRun(env, actions + [a]) && After(env, actions + [a]) == Step(env, After(env, actions), a)
    ensures Arrivals(actions + [a]) == Arrivals(actions) && BlockTimes(actions + [a]) == BlockTimes(actions)
  {
    RunExtends(env, actions, a);
    ActionSnoc(actions, a);
  }

  /** Action i received this, after as many ended blocks as it says. */
  predicate IsAt(actions: seq<Action>, a: Arrival, i: nat) {
    i < |actions| && actions[i] == Receive(a.record) && a.block == |BlockTimes(actions[..i])|
  }

  predicate Placed(actions: seq<Action>, arrivals: seq<Arrival>, at: seq<nat>) {
    && |at| == |arrivals|
    && (forall p :: 0 <= p < |at| ==> IsAt(actions, arrivals[p], at[p]))
    && (forall p, q :: 0 <= p < q < |at| ==> at[p] < at[q])
    && forall i :: 0 <= i < |actions| && actions[i].Receive? ==> i in at
  }

  lemma IsAtStill(actions: seq<Action>, more: Action, a: Arrival, i: nat)
    requires IsAt(actions, a, i)
    ensures IsAt(actions + [more], a, i)
  {
    assert (actions + [more])[..i] == actions[..i];
  }

  lemma PlacedStill(actions: seq<Action>, more: Action, arrivals: seq<Arrival>, at: seq<nat>)
    requires Placed(actions, arrivals, at) && !more.Receive?
    ensures Placed(actions + [more], arrivals, at)
  {
    forall p | 0 <= p < |at| ensures IsAt(actions + [more], arrivals[p], at[p]) {
      IsAtStill(actions, more, arrivals[p], at[p]);
    }
  }

  lemma PlacedSnoc(actions: seq<Action>, r: ArchivalRecord, arrivals: seq<Arrival>, at: seq<nat>)
    requires Placed(actions, arrivals, at)
    ensures Placed(actions + [Receive(r)], arrivals + [Arrival(|BlockTimes(actions)|, r)], at + [|actions|])
  {
    var actions', arrivals' := actions + [Receive(r)], arrivals + [Arrival(|BlockTimes(actions)|, r)];
    var at' := at + [|actions|];
    assert actions'[..|actions|] == actions;
    forall p | 0 <= p < |at'| ensures IsAt(actions', arrivals'[p], at'[p]) {
      if p < |at| {
        IsAtStill(actions, Receive(r), arrivals[p], at[p]);
      }
    }
    forall p, q | 0 <= p < q < |at'| ensures at'[p] < at'[q] {
      assert IsAt(actions, arrivals[p], at[p]);
    }
    assert at'[|at|] == |actions|;
    forall i | 0 <= i < |actions'| && actions'[i].Receive? ensures i in at' {
      if i < |actions| {
        assert actions[i].Receive? && i in at;
        var p :| 0 <= p < |at| && at[p] == i;
        assert at'[p] == i;
      }
    }
  }

  /** The arrivals are exactly the receiving actions, in order, each after as many ended blocks as it says. */
  lemma {:induction false} ArrivalsAreReceives(actions: seq<Action>) returns (at: seq<nat>)
    ensures Placed(actions, Arrivals(actions), at)
  {
    if actions == [] {
      at := [];
    } else {
      var init, last := actions[..|actions| - 1], actions[|actions| - 1];
      assert actions == init + [last];
      ActionSnoc(init, last);
      at := ArrivalsAreReceives(init);
      if last.Receive? {
        PlacedSnoc(init, last.record, Arrivals(init), at);
        at := at + [|init|];
      } else {
        PlacedStill(init, last, Arrivals(init), at);
        assert Arrivals(init) + [] == Arrivals(init);
      }
    }
  }

  // ---------------------------------------------------------------- where a record comes from

  /** A place in a list of blocks. */
  datatype Origin = Origin(block: nat, v6: bool, index: nat)

  /** Blocks in order, in a block v4 before v6, and then by index. */
  predicate Before(a: Origin, b: Origin) {
    || a.block < b.block
    || (a.block == b.block && !a.v6 && b.v6)
    || (a.block == b.block && a.v6 == b.v6 && a.index < b.index)
  }

  predicate InBlocks(blocks: seq<MessageBlock>, o: Origin) {
    o.block < |blocks| && o.index < if o.v6 then |blocks[o.block].v6| else |blocks[o.block].v4|
  }

  function MessageAt(blocks: seq<MessageBlock>, o: Origin): Option<NetlinkMessage>
    requires InBlocks(blocks, o)
  {
    if o.v6 then blocks[o.block].v6[o.index] else blocks[o.block].v4[o.index]
  }

  /** The message there is not nil, and a record is made of it. */
  predicate Yields(isLocal: seq<Byte> -> bool, blocks: seq<MessageBlock>, o: Origin)
    requires InBlocks(blocks, o)
  {
    MessageAt(blocks, o).Some? && RecordOf(isLocal, MessageAt(blocks, o).value, true).Made?
  }

  /** The arrival is the record made of the message there, with the time of its list, in its block. */
  predicate IsOf(isLocal: seq<Byte> -> bool, blocks: seq<MessageBlock>, o: Origin, a: Arrival)
    requires InBlocks(blocks, o) && Yields(isLocal, blocks, o)
  {
    var r := RecordOf(isLocal, MessageAt(blocks, o).value, true).record;
    && a.block == o.block
    && a.record == r.(timestamp := if o.v6 then blocks[o.block].v6Time else blocks[o.block].v4Time)
  }

  predicate Traced(
    isLocal: seq<Byte> -> bool, blocks: seq<MessageBlock>, origins: seq<Origin>, arrivals: seq<Arrival>)
  {
    && |origins| == |arrivals|
    && (forall p :: 0 <= p < |origins| ==> InBlocks(blocks, origins[p]) && Yields(isLocal, blocks, origins[p]))
    && (forall p :: 0 <= p < |origins| ==> IsOf(isLocal, blocks, origins[p], arrivals[p]))
    && (forall p, q :: 0 <= p < q < |origins| ==> Before(origins[p], origins[q]))
  }

  /**
    The arrivals are exactly what the messages in the blocks yield: each is the record of one message, they come in the
    order of the messages, and no message that yields a record is left out.
   */
  ghost predicate ComeFrom(
    isLocal: seq<Byte> -> bool, blocks: seq<MessageBlock>, origins: seq<Origin>, arrivals: seq<Arrival>)
  {
    && Traced(isLocal, blocks, origins, arrivals)
    && forall o :: InBlocks(blocks, o) && Yields(isLocal, blocks, o) ==> o in origins
  }

  // ---------------------------------------------------------------- proof

  /** The same, of the messages before a place. */
  ghost predicate ComeFromBefore(
    isLocal: seq<Byte> -> bool, blocks: seq<MessageBlock>, end: Origin, origins: seq<Origin>, arrivals: seq<Arrival>)
  {
    && Traced(isLocal, blocks, origins, arrivals)
    && (forall p :: 0 <= p < |origins| ==> Before(origins[p], end))
    && forall o :: InBlocks(blocks, o) && Yields(isLocal, blocks, o) && Before(o, end) ==> o in origins
  }

  lemma TracedSnoc(
    isLocal: seq<Byte> -> bool, blocks: seq<MessageBlock>, origins: seq<Origin>, arrivals: seq<Arrival>,
    o: Origin, a: Arrival)
    requires Traced(isLocal, blocks, origins, arrivals)
    requires InBlocks(blocks, o) && Yields(isLocal, blocks, o) && IsOf(isLocal, blocks, o, a)
    requires forall p :: 0 <= p < |origins| ==> Before(origins[p], o)
    ensures Traced(isLocal, blocks, origins + [o], arrivals + [a])
  {
  }

  /** One message on. */
  lemma NextMessage(
    isLocal: seq<Byte> -> bool, blocks: seq<MessageBlock>, o: Origin, origins: seq<Origin>, arrivals: seq<Arrival>)
    returns (origins': seq<Origin>)
    requires InBlocks(blocks, o) && ComeFromBefore(isLocal, blocks, o, origins, arrivals)
    ensures
      var t := if o.v6 then blocks[o.block].v6Time else blocks[o.block].v4Time;
      ComeFromBefore(isLocal, blocks, o.(index := o.index + 1), origins',
        arrivals + Arrived(o.block, RecordFrom(isLocal, t, MessageAt(blocks, o))))
  {
    var t := if o.v6 then blocks[o.block].v6Time else blocks[o.block].v4Time;
    var r := RecordFrom(isLocal, t, MessageAt(blocks, o));
    assert forall x :: Before(x, o.(index := o.index + 1)) ==> Before(x, o) || x == o;
    if Yields(isLocal, blocks, o) {
      origins' := origins + [o];
      TracedSnoc(isLocal, blocks, origins, arrivals, o, Arrival(o.block, r.value));
    } else {
      origins' := origins;
      assert arrivals + [] == arrivals;
    }
  }

  function MessagesOf(blocks: seq<MessageBlock>, k: nat, v6: bool): seq<Option<NetlinkMessage>>
    requires k < |blocks|
  {
    if v6 then blocks[k].v6 else blocks[k].v4
  }

  function TimeOf(blocks: seq<MessageBlock>, k: nat, v6: bool): Time
    requires k < |blocks|
  {
    if v6 then blocks[k].v6Time else blocks[k].v4Time
  }

  /** One list of messages on, up to message n. */
  lemma {:induction false} ListComes(
    isLocal: seq<Byte> -> bool, blocks: seq<MessageBlock>, k: nat, v6: bool, n: nat,
    origins: seq<Origin>, arrivals: seq<Arrival>)
    returns (origins': seq<Origin>)
    requires k < |blocks| && n <= |MessagesOf(blocks, k, v6)|
    requires ComeFromBefore(isLocal, blocks, Origin(k, v6, 0), origins, arrivals)
    ensures ComeFromBefore(isLocal, blocks, Origin(k, v6, n), origins',
      arrivals + RecordsFrom(isLocal, k, TimeOf(blocks, k, v6), MessagesOf(blocks, k, v6)[..n]))
  {
    var t, msgs := TimeOf(blocks, k, v6), MessagesOf(blocks, k, v6);
    if n == 0 {
      origins' := origins;
      assert arrivals + [] == arrivals;
    } else {
      var middle := ListComes(isLocal, blocks, k, v6, n - 1, origins, arrivals);
      RecordsFromNext(isLocal, k, t, msgs, n - 1, arrivals);
      origins' := NextMessage(isLocal, blocks, Origin(k, v6, n - 1), middle,
        arrivals + RecordsFrom(isLocal, k, t, msgs[..n - 1]));
    }
  }

  /** From the end of one list to the beginning of the next. */
  lemma NextList(
    isLocal: seq<Byte> -> bool, blocks: seq<MessageBlock>, end: Origin, next: Origin,
    origins: seq<Origin>, arrivals: seq<Arrival>)
    requires ComeFromBefore(isLocal, blocks, end, origins, arrivals)
    requires forall o :: Before(o, end) ==> Before(o, next)
    requires forall o :: InBlocks(blocks, o) && Before(o, next) ==> Before(o, end)
    ensures ComeFromBefore(isLocal, blocks, next, origins, arrivals)
  {
  }

  /** One block on. */
  lemma BlockComes(
    isLocal: seq<Byte> -> bool, blocks: seq<MessageBlock>, k: nat, origins: seq<Origin>, arrivals: seq<Arrival>)
    returns (origins': seq<Origin>)
    requires k < |blocks| && ComeFromBefore(isLocal, blocks, Origin(k, false, 0), origins, arrivals)
    ensures ComeFromBefore(
      isLocal, blocks, Origin(k + 1, false, 0), origins', arrivals + RecordsInBlock(isLocal, k, blocks[k]))
  {
    var b := blocks[k];
    var v4 := RecordsFrom(isLocal, k, b.v4Time, b.v4);
    assert b.v4[..|b.v4|] == b.v4 && b.v6[..|b.v6|] == b.v6;
    var middle := ListComes(isLocal, blocks, k, false, |b.v4|, origins, arrivals);
    NextList(isLocal, blocks, Origin(k, false, |b.v4|), Origin(k, true, 0), middle, arrivals + v4);
    origins' := ListComes(isLocal, blocks, k, true, |b.v6|, middle, arrivals + v4);
    AppendAssociates(arrivals, v4, RecordsFrom(isLocal, k, b.v6Time, b.v6));
    NextList(isLocal, blocks, Origin(k, true, |b.v6|), Origin(k + 1, false, 0), origins',
      arrivals + RecordsInBlock(isLocal, k, b));
  }

  lemma NextBlock(isLocal: seq<Byte> -> bool, blocks: seq<MessageBlock>, k: nat)
    requires 0 < k <= |blocks|
    ensures RecordsInBlocks(isLocal, blocks[..k]) ==
      RecordsInBlocks(isLocal, blocks[..k - 1]) + RecordsInBlock(isLocal, k - 1, blocks[k - 1])
  {
    assert blocks[..k][..k - 1] == blocks[..k - 1];
  }

  lemma {:induction false} FirstBlocksCome(isLocal: seq<Byte> -> bool, blocks: seq<MessageBlock>, k: nat)
    returns (origins: seq<Origin>)
    requires k <= |blocks|
    ensures ComeFromBefore(isLocal, blocks, Origin(k, false, 0), origins, RecordsInBlocks(isLocal, blocks[..k]))
  {
    if k == 0 {
      origins := [];
    } else {
      var before := FirstBlocksCome(isLocal, blocks, k - 1);
      origins := BlockComes(isLocal, blocks, k - 1, before, RecordsInBlocks(isLocal, blocks[..k - 1]));
      NextBlock(isLocal, blocks, k);
    }
  }

  /** The records of the blocks are exactly what their messages yield. */
  lemma BlocksCome(isLocal: seq<Byte> -> bool, blocks: seq<MessageBlock>) returns (origins: seq<Origin>)
    ensures ComeFrom(isLocal, blocks, origins, RecordsInBlocks(isLocal, blocks))
  {
    origins := FirstBlocksCome(isLocal, blocks, |blocks|);
    assert blocks[..|blocks|] == blocks;
    assert forall o :: InBlocks(blocks, o) ==> Before(o, Origin(|blocks|, false, 0));
  }

  /** The arrivals of a first block, as those of block k. */
  function InBlock(k: nat, arrivals: seq<Arrival>): seq<Arrival> {
    seq(|arrivals|, i requires 0 <= i < |arrivals| => Arrival(k, arrivals[i].record))
  }

  lemma {:induction false} RecordsInBlockNumber(
    isLocal: seq<Byte> -> bool, k: nat, t: Time, msgs: seq<Option<NetlinkMessage>>)
    ensures RecordsFrom(isLocal, k, t, msgs) == InBlock(k, RecordsFrom(isLocal, 0, t, msgs))
  {
    if msgs == [] {
    } else {
      RecordsInBlockNumber(isLocal, k, t, msgs[..|msgs| - 1]);
    }
  }

  lemma InBlockConcat(k: nat, a: seq<Arrival>, b: seq<Arrival>)
    ensures InBlock(k, a + b) == InBlock(k, a) + InBlock(k, b)
  {
  }

  lemma OneBlockIsFirst(isLocal: seq<Byte> -> bool, b: MessageBlock)
    ensures RecordsInBlocks(isLocal, [b]) == RecordsInBlock(isLocal, 0, b)
  {
    assert [b][..0] == [];
    var records := RecordsInBlock(isLocal, 0, b);
    assert RecordsInBlocks(isLocal, []) + records == records;
  }

  /** The records of one block are exactly what its messages yield. */
  lemma OneBlockComes(isLocal: seq<Byte> -> bool, k: nat, b: MessageBlock) returns (origins: seq<Origin>)
    ensures ComeFrom(isLocal, [b], origins, RecordsInBlock(isLocal, 0, b))
    ensures RecordsInBlock(isLocal, k, b) == InBlock(k, RecordsInBlock(isLocal, 0, b))
  {
    assert RecordsInBlock(isLocal, k, b) == InBlock(k, RecordsInBlock(isLocal, 0, b)) by {
      RecordsInBlockNumber(isLocal, k, b.v4Time, b.v4);
      RecordsInBlockNumber(isLocal, k, b.v6Time, b.v6);
      InBlockConcat(k, RecordsFrom(isLocal, 0, b.v4Time, b.v4), RecordsFrom(isLocal, 0, b.v6Time, b.v6));
    }
    OneBlockIsFirst(isLocal, b);
    origins := BlocksCome(isLocal, [b]);
  }
}
