/** How files follow each other: numbering, headers and times. */
module Rotation {
  import opened Bytes
  import InetDiag
  import opened Archival
  import opened Cache
  import opened SaverModel

  /** The header of the last file opened for a cookie. */
  function LastHeader(files: seq<Metadata>, cookie: U64): Option<Metadata> {
    if files == [] then None
    else if files[|files| - 1].cookie == cookie then Some(files[|files| - 1])
    else LastHeader(files[..|files| - 1], cookie)
  }

  /** A file is the first of a connection, or the next after the last one of the same connection. */
  predicate Follows(earlier: seq<Metadata>, header: Metadata) {
    || header.sequence == 0
    || LastHeader(earlier, header.cookie) == Some(Metadata(header.cookie, header.sequence - 1, header.startTime))
  }

  predicate Consecutive(files: seq<Metadata>) {
    forall w :: 0 <= w < |files| ==> Follows(files[..w], files[w])
  }

  /** Some reading of the clock was later than t. */
  ghost predicate Passed(env: Env, ticks: nat, t: Time) {
    exists i :: 0 <= i < ticks && env.clock(i) > t
  }

  ghost predicate WasRead(env: Env, ticks: nat, t: Time) {
    exists i :: 0 <= i < ticks && env.clock(i) == t
  }

  /** When the file with this sequence number becomes due to be replaced. */
  function Due(conn: Connection, files: nat): Time {
    conn.created + FILE_AGE_LIMIT * files
  }

  ghost predicate OnTime(env: Env, o: Output, cookie: U64, conn: Connection) {
    && InetDiag.CookieUint64(conn.id) == cookie
    && WasRead(env, o.ticks, conn.created)
    && conn.expiration == Due(conn, conn.sequence)
    && (conn.writer.Some? ==> conn.sequence >= 1)
    && (conn.writer.None? && conn.sequence >= 1 ==> Passed(env, o.ticks, Due(conn, conn.sequence)))
    && (conn.sequence > 1 ==> Passed(env, o.ticks, Due(conn, conn.sequence - 1)))
    && (conn.sequence > 0 ==> LastHeader(o.files, cookie) == Some(Metadata(cookie, conn.sequence - 1, conn.startTime)))
  }

  ghost predicate RotationInv(env: Env, o: Output) {
    && Consecutive(o.files)
    && forall c :: c in o.connections ==> OnTime(env, o, c, o.connections[c])
  }

  /** More readings of the clock do not undo what has passed. */
  lemma TicksOn(env: Env, o: Output, more: Output, cookie: U64, conn: Connection)
    requires OnTime(env, o, cookie, conn)
    requires more.ticks >= o.ticks && more.files == o.files
    ensures OnTime(env, more, cookie, conn)
  {
  }

  lemma EnsuredOnTime(env: Env, o: Output, msg: CachedRecord)
    requires RotationInv(env, o)
    ensures RotationInv(env, Ensured(env, o, msg))
  {
    var o' := Ensured(env, o, msg);
    forall c | c in o'.connections ensures OnTime(env, o', c, o'.connections[c]) {
      if c in o.connections {
        TicksOn(env, o, o', c, o.connections[c]);
      } else {
        assert env.clock(o.ticks) == o'.connections[c].created;
      }
    }
  }

  lemma RetiredOnTime(env: Env, o: Output, cookie: U64)
    requires RotationInv(env, o) && cookie in o.connections
    ensures RotationInv(env, Retired(env, o, cookie))
  {
    var o' := Retired(env, o, cookie);
    forall c | c in o'.connections ensures OnTime(env, o', c, o'.connections[c]) {
      TicksOn(env, o, o', c, o.connections[c]);
    }
  }

  lemma HeaderSnoc(files: seq<Metadata>, header: Metadata, cookie: U64)
    ensures LastHeader(files + [header], cookie) ==
      if header.cookie == cookie then Some(header) else LastHeader(files, cookie)
  {
    assert (files + [header])[..|files|] == files;
  }

  lemma FileFollows(files: seq<Metadata>, header: Metadata)
    requires Consecutive(files) && Follows(files, header)
    ensures Consecutive(files + [header])
  {
    var files' := files + [header];
    forall w | 0 <= w < |files'| ensures Follows(files'[..w], files'[w]) {
      assert files'[..w] == files[..w];
    }
  }

  lemma RotatedOnTime(env: Env, o: Output, cookie: U64)
    requires RotationInv(env, o) && cookie in o.connections
    ensures RotationInv(env, Rotated(env, o, cookie))
  {
    var o' := Rotated(env, o, cookie);
    var conn := o.connections[cookie];
    assert OnTime(env, o, cookie, conn);
    if o'.files == o.files {
      forall c | c in o'.connections ensures OnTime(env, o', c, o'.connections[c]) {
        TicksOn(env, o, o', c, o.connections[c]);
      }
    } else {
      var header := o'.files[|o.files|];
      FileFollows(o.files, header);
      forall c | c in o'.connections ensures OnTime(env, o', c, o'.connections[c]) {
        assert OnTime(env, o, c, o.connections[c]);
        HeaderSnoc(o.files, header, c);
      }
    }
  }

  lemma QueueOnTime(env: Env, o: Output, msg: CachedRecord)
    requires RotationInv(env, o)
    ensures RotationInv(env, Queue(env, o, msg))
  {
    var cookie := CookieOf(msg);
    if cookie != 0 {
      var o1 := Ensured(env, o, msg);
      EnsuredOnTime(env, o, msg);
      var o2 := Retired(env, o1, cookie);
      RetiredOnTime(env, o1, cookie);
      var o3 := Rotated(env, o2, cookie);
      RotatedOnTime(env, o2, cookie);
      SameOnTime(env, o3, Delivered(env, o3, msg));
    } else {
      SameOnTime(env, o, Queue(env, o, msg));
    }
  }

  lemma EndConnOnTime(env: Env, o: Output, cookie: U64)
    requires RotationInv(env, o)
    ensures RotationInv(env, EndConn(env, o, cookie))
  {
    SameOnTime(env, o, EndConn(env, o, cookie));
  }

  /** Nothing is at stake when no connection is added or changed and no file is opened. */
  lemma SameOnTime(env: Env, o: Output, o': Output)
    requires RotationInv(env, o)
    requires o'.files == o.files && o'.ticks >= o.ticks
    requires forall c :: c in o'.connections ==> c in o.connections && o'.connections[c] == o.connections[c]
    ensures RotationInv(env, o')
  {
    forall c | c in o'.connections ensures OnTime(env, o', c, o'.connections[c]) {
      TicksOn(env, o, o', c, o.connections[c]);
    }
  }

  lemma {:induction false} RunOnTime(env: Env, actions: seq<Action>)
    requires IsRun(env, actions)
    ensures RotationInv(env, After(env, actions).core.out)
  {
    if actions == [] {
    } else {
      var n := |actions| - 1;
      RunSplits(env, actions);
      RunOnTime(env, actions[..n]);
      var s := After(env, actions[..n]);
      var a := actions[n];
      StepOutput(env, s, a);
      if a.Receive? && InetDiag.Parses(RawOf(a.record)) {
        QueueOnTime(env, s.core.out, a.record);
      }
      if a.ExpireOne? || a.CloseOne? {
        EndConnOnTime(env, s.core.out, a.cookie);
      }
    }
  }

  ghost predicate Nondecreasing(clock: nat -> Time) {
    forall i: nat, j: nat :: i <= j ==> clock(i) <= clock(j)
  }

  /**
    In every run, whichever files fail to open, the files of a connection are numbered from 0 without gaps and
    carry its start time; and a connection has opened at most one file per 10 minutes since it was first seen,
    plus one.
   */
  lemma FilesAreNumberedAndPaced(env: Env, actions: seq<Action>, cookie: U64)
    requires IsRun(env, actions)
    ensures
      var o := After(env, actions).core.out;
      && Consecutive(o.files)
      && (cookie in o.connections ==>
            && var conn := o.connections[cookie];
            && conn.expiration == conn.created + 600_000_000_000 * conn.sequence
            && (conn.sequence > 0 ==>
                  LastHeader(o.files, cookie) == Some(Metadata(cookie, conn.sequence - 1, conn.startTime)))
            && (Nondecreasing(env.clock) && conn.sequence > 1 ==>
                  && o.ticks > 0
                  && 600_000_000_000 * (conn.sequence - 1) < env.clock(o.ticks - 1) - conn.created))
  {
    RunOnTime(env, actions);
    var o := After(env, actions).core.out;
    if cookie in o.connections {
      var conn := o.connections[cookie];
      assert OnTime(env, o, cookie, conn);
      if Nondecreasing(env.clock) && conn.sequence > 1 {
        var i :| 0 <= i < o.ticks && env.clock(i) > Due(conn, conn.sequence - 1);
        assert env.clock(i) <= env.clock(o.ticks - 1);
      }
    }
  }
}
