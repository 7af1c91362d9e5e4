/**
Laws of whole runs of `EdgeTriggered`: how often the kernel reports a descriptor,
what is known of a stream, and what the client thread's errno holds.
*/
module EdgeTriggeredRuns {
  import opened EdgeTriggered
  import opened SocketReceive

  // ------------------------------------------------------- what the kernel's part does

  /** The step makes the descriptor ready: something new on a watched stream, or a look at it. */
  predicate Edge(s: State, e: Event, fd: Fd) {
    match e
    case Arrive(f, _) => f == fd && fd in s.streams && s.streams[fd].watched
    case PeerCloses(f) => f == fd && fd in s.streams && s.streams[fd].watched
    case Watch(f) => f == fd && fd in s.streams && (s.streams[fd].pending != [] || s.streams[fd].closed)
    case Rearm(f) => f == fd
    case _ => false
  }

  predicate Reported(e: Event, fd: Fd) {
    e.Wait? && fd in Fds(e.batch)
  }

  predicate TakenBack(e: Event, fd: Fd) {
    e == Forget(fd) || e == Drop(fd)
  }

  lemma ReadyWorld(s: State, e: Event, fd: Fd)
    requires WorldEnabled(s, e)
    ensures fd in ApplyWorld(s, e).ready <==> Edge(s, e, fd) || (fd in s.ready && !TakenBack(e, fd))
  {
  }

  lemma ReadyThread(s: State, e: Event, fd: Fd)
    requires ThreadEnabled(s, e)
    ensures fd in ApplyThread(s, e).ready <==> fd in s.ready && !Reported(e, fd)
    ensures Reported(e, fd) ==> fd in s.ready
  {
    if Reported(e, fd) {
      var entry :| entry in e.batch && entry.fd == fd;
    }
  }

  /** After a step a descriptor is ready exactly if the step was an edge for it, or it was and stayed so. */
  lemma ReadyExactly(s: State, e: Event, fd: Fd)
    requires Enabled(s, e)
    ensures fd in Apply(s, e).ready
            <==> Edge(s, e, fd) || (fd in s.ready && !Reported(e, fd) && !TakenBack(e, fd))
    ensures Reported(e, fd) ==> fd in s.ready
  {
    hide ThreadEnabled, WorldEnabled, ApplyThread, ApplyWorld;
    if ByClientThread(e) {
      ReadyThread(s, e, fd);
    } else {
      ReadyWorld(s, e, fd);
    }
  }

  function Reports(es: seq<Event>, fd: Fd): nat
    decreases |es|
  {
    if |es| == 0 then 0 else One(Reported(es[0], fd)) + Reports(es[1..], fd)
  }

  function One(b: bool): nat {
    if b then 1 else 0
  }

  ghost function Edges(s: State, es: seq<Event>, fd: Fd): nat
    requires Legal(s, es)
    decreases |es|
  {
    if |es| == 0 then 0 else One(Edge(s, es[0], fd)) + Edges(Apply(s, es[0]), es[1..], fd)
  }

  /** Edge-triggered: over every run a descriptor is reported at most once for each edge. */
  lemma {:induction false} ReportedOncePerEdge(s: State, es: seq<Event>, fd: Fd)
    requires Legal(s, es)
    ensures Reports(es, fd) + One(fd in After(s, es).ready) <= Edges(s, es, fd) + One(fd in s.ready)
    decreases |es|
  {
    hide Enabled, Apply, Edge, Reported, TakenBack;
    if |es| != 0 {
      ReadyExactly(s, es[0], fd);
      EdgeIsNoReport(s, es[0], fd);
      ReportedOncePerEdge(Apply(s, es[0]), es[1..], fd);
    }
  }

  lemma EdgeIsNoReport(s: State, e: Event, fd: Fd)
    ensures !(Edge(s, e, fd) && Reported(e, fd))
  {
  }

  /** All bytes that the run brings to a stream. */
  function Brought(es: seq<Event>, fd: Fd): seq<bv8>
    decreases |es|
  {
    if |es| == 0 then []
    else (if es[0].Arrive? && es[0].fd == fd then es[0].bytes else []) + Brought(es[1..], fd)
  }

  /** What one event does to a stream: bytes brought, the peer's close, watching and closing. */
  ghost predicate StreamMoves(t: Stream, e: Event, fd: Fd, u: Stream) {
    && u.arrived == t.arrived + (if e.Arrive? && e.fd == fd then e.bytes else [])
    && (u.closed <==> t.closed || e == PeerCloses(fd))
    && (u.open <==> t.open && e != Drop(fd))
    && (u.watched <==> (t.watched || e == Watch(fd)) && e != Drop(fd))
  }

  lemma StreamMovesWorld(s: State, e: Event, fd: Fd)
    requires WorldEnabled(s, e)
    ensures fd in ApplyWorld(s, e).streams <==> fd in s.streams || e == Connect(fd)
    ensures fd in s.streams ==> StreamMoves(s.streams[fd], e, fd, ApplyWorld(s, e).streams[fd])
  {
    hide Renamed;
  }

  lemma StreamMovesThread(s: State, e: Event, fd: Fd)
    requires ThreadEnabled(s, e)
    ensures fd in ApplyThread(s, e).streams <==> fd in s.streams
    ensures fd in s.streams ==> StreamMoves(s.streams[fd], e, fd, ApplyThread(s, e).streams[fd])
  {
    hide Reportable;
  }

  lemma WorldHistoryStep(s: State, e: Event, fd: Fd)
    requires Enabled(s, e)
    ensures fd in Apply(s, e).streams <==> fd in s.streams || e == Connect(fd)
    ensures fd in s.streams ==> StreamMoves(s.streams[fd], e, fd, Apply(s, e).streams[fd])
  {
    hide StreamMoves, ApplyWorld, ApplyThread, WorldEnabled, ThreadEnabled;
    if ByClientThread(e) {
      StreamMovesThread(s, e, fd);
    } else {
      StreamMovesWorld(s, e, fd);
    }
  }

  /** What is known of a stream is what the run has brought to it. */
  lemma {:induction false} StreamIsHistory(s: State, es: seq<Event>, fd: Fd)
    requires Legal(s, es)
    ensures fd in After(s, es).streams <==> fd in s.streams || Connect(fd) in es
    ensures fd in s.streams
            ==> var t, u := s.streams[fd], After(s, es).streams[fd];
                && u.arrived == t.arrived + Brought(es, fd)
                && (u.closed <==> t.closed || PeerCloses(fd) in es)
                && (u.open <==> t.open && Drop(fd) !in es)
                && (Drop(fd) !in es ==> (u.watched <==> t.watched || Watch(fd) in es))
    decreases |es|
  {
    hide Enabled, Apply;
    if |es| != 0 {
      var e, rest := es[0], es[1..];
      assert es == [e] + rest;
      WorldHistoryStep(s, e, fd);
      StreamIsHistory(Apply(s, e), rest, fd);
    }
  }

  function Watches(es: seq<Event>, fd: Fd): nat
    decreases |es|
  {
    if |es| == 0 then 0 else One(es[0] == Watch(fd)) + Watches(es[1..], fd)
  }

  /** The thread takes a descriptor on once, and never one that is being dropped. */
  lemma {:induction false} WatchedOnce(s: State, es: seq<Event>, fd: Fd)
    requires WellPlaced(s) && Legal(s, es) && fd in s.streams
    ensures Watches(es, fd) <= One(!s.streams[fd].watched && !s.streams[fd].failed)
    decreases |es|
  {
    hide Apply, WellPlaced, ApplyWorld, ApplyThread, ThreadEnabled;
    if |es| != 0 {
      var e := es[0];
      WorldHistoryStep(s, e, fd);
      StreamsStay(s, e, fd);
      WellPlacedStep(s, e);
      DroppedFails(s, fd);
      WatchedOnce(Apply(s, e), es[1..], fd);
    }
  }

  lemma DroppedFails(s: State, fd: Fd)
    requires fd in s.streams
    ensures Apply(s, Drop(fd)).streams[fd].failed
  {
  }

  /** Bytes that came before the descriptor was watched are read all the same. */
  lemma LateWatchReads(s: State, fd: Fd)
    requires Asleep(s) && fd in s.streams
    requires var t := s.streams[fd]; !t.watched && !t.failed && (t.pending != [] || t.closed)
    ensures Enabled(s, Watch(fd))
    ensures var u, es := Apply(s, Watch(fd)), [Wait([Entry(fd, Readable)]), NextEvent];
            Legal(u, es) && After(u, es).thread == Draining(fd, [], [])
  {
    hide Legal, After;
    TakenUp(Apply(s, Watch(fd)), fd);
  }

  /** One wait reports up to a hundred descriptors, and no more. */
  lemma BatchSize(s: State, batch: seq<Entry>)
    requires s.thread.Waiting? && Fds(batch) <= s.ready <= s.streams.Keys && |Fds(batch)| == |batch|
    requires forall e :: e in batch ==> e.kind == Readable
    ensures Enabled(s, Wait(batch)) <==> 1 <= |batch| <= 100
  {
    forall e | e in batch
      ensures e.fd in s.ready
    {
      assert e.fd in Fds(batch);
    }
  }

  /** One read takes what is there, up to the length of the buffer. */
  lemma ChunkSize(s: State, n: nat)
    requires s.thread.Draining? && s.thread.fd in s.streams
    ensures var t := s.streams[s.thread.fd];
            Enabled(s, Chunk(n)) <==> t.open && 1 <= n <= 10240 && n <= |t.pending|
  {
  }

  /**
  A sender's re-arming wakes a sleeping thread for writing only: it reads nothing
  and goes back to sleep, and so does a wakeup that the kernel takes back.
  */
  lemma WriteReadinessReadsNothing(s: State, fd: Fd)
    requires Asleep(s) && fd in s.streams && s.streams[fd].watched && !ReadWorthy(s.streams[fd])
    ensures var es := [Rearm(fd), Wait([Entry(fd, WritableOnly)])] + [NextEvent, BatchDone];
            Legal(s, es) && After(s, es) == s
    ensures Legal(s, [Rearm(fd), Forget(fd)]) && After(s, [Rearm(fd), Forget(fd)]) == s
  {
    hide Legal, After, Enabled, Apply;
    var entry := Entry(fd, WritableOnly);
    WokenForWriting(s, fd);
    var t := After(s, [Rearm(fd), Wait([entry])]);
    SkipsWriting(t, entry);
    AfterAppend(s, [Rearm(fd), Wait([entry])], [NextEvent, BatchDone]);
    WakeupForgotten(s, fd);
  }

  lemma WakeupForgotten(s: State, fd: Fd)
    requires Asleep(s) && fd in s.streams && s.streams[fd].watched && !ReadWorthy(s.streams[fd])
    ensures Legal(s, [Rearm(fd), Forget(fd)]) && After(s, [Rearm(fd), Forget(fd)]) == s
  {
    hide Legal, After;
    assert s.ready + {fd} - {fd} == {};
    TwoSteps(s, Rearm(fd), Forget(fd));
  }

  lemma WokenForWriting(s: State, fd: Fd)
    requires Asleep(s) && fd in s.streams && s.streams[fd].watched && !ReadWorthy(s.streams[fd])
    ensures var batch := [Entry(fd, WritableOnly)];
            Legal(s, [Rearm(fd), Wait(batch)]) && After(s, [Rearm(fd), Wait(batch)]) == s.(thread := Handling(batch))
  {
    hide Legal, After;
    var batch := [Entry(fd, WritableOnly)];
    assert batch[0] in batch && Fds(batch) == {fd};
    assert s.ready + {fd} - {fd} == {};
    TwoSteps(s, Rearm(fd), Wait(batch));
  }

  lemma SkipsWriting(s: State, entry: Entry)
    requires s.thread == Handling([entry]) && entry.kind == WritableOnly
    ensures Legal(s, [NextEvent, BatchDone]) && After(s, [NextEvent, BatchDone]) == s.(thread := Waiting)
  {
    hide Legal, After;
    assert [entry][1..] == [];
    TwoSteps(s, NextEvent, BatchDone);
  }

  /** Another client thread that reads the stream first leaves this thread's read empty-handed. */
  lemma StrayLeavesNothing(s: State)
    requires s.thread.Draining? && s.thread.held == [] && s.thread.fd in s.streams
    requires var t := s.streams[s.thread.fd]; t.open && !t.closed && t.pending != []
    ensures var fd := s.thread.fd;
            var es := [Stray(fd, |s.streams[fd].pending|)] + [RunsDry, Deliver];
            && Legal(s, es) && fd in After(s, es).streams
            && After(s, es).streams[fd].pending == [] && After(s, es).streams[fd].strayed
            && Delivered(After(s, es).streams[fd].calls) == Delivered(s.streams[fd].calls)
  {
    hide Legal, After, Delivered, Consumed;
    var fd := s.thread.fd;
    var e := Stray(fd, |s.streams[fd].pending|);
    OneStep(s, e);
    var t := Apply(s, e);
    ReadAsNew(t);
    AfterAppend(s, [e], [RunsDry, Deliver]);
    OneMoreCall(s.streams[fd].calls, Piece([], Handed));
  }

  // ----------------------------------------------------------------- what errno holds

  /** The last value that a run writes to errno, if it writes any. */
  function LastWrite(errno: int, es: seq<Event>): int
    decreases |es|
  {
    if |es| == 0 then errno
    else
      match es[|es| - 1]
      case RunsDry => 11
      case ReadFails(error) => error
      case OtherCall(error) => error
      case _ => LastWrite(errno, es[..|es| - 1])
  }

  lemma ErrnoStep(s: State, e: Event)
    requires Enabled(s, e)
    ensures Apply(s, e).errno == LastWrite(s.errno, [e])
  {
    assert [e][..0] == [];
  }

  lemma {:induction false} LastWriteFrom(errno: int, e: Event, es: seq<Event>)
    ensures LastWrite(errno, [e] + es) == LastWrite(LastWrite(errno, [e]), es)
    decreases |es|
  {
    if |es| == 0 {
      assert [e] + es == [e];
    } else {
      LastWriteFrom(errno, e, es[..|es| - 1]);
      assert ([e] + es)[..|es|] == [e] + es[..|es| - 1];
    }
  }

  /**
  In every run errno holds what the run wrote last: EAGAIN from a read that ran
  dry, the error of one that failed, or what some other call of the thread left.
  Handing bytes on, waiting and meeting a close write nothing.
  */
  lemma {:induction false} ErrnoIsLastWrite(s: State, es: seq<Event>)
    requires Legal(s, es)
    ensures After(s, es).errno == LastWrite(s.errno, es)
    decreases |es|
  {
    hide Enabled, Apply;
    if |es| != 0 {
      ErrnoStep(s, es[0]);
      ErrnoIsLastWrite(Apply(s, es[0]), es[1..]);
      LastWriteFrom(s.errno, es[0], es[1..]);
      assert [es[0]] + es[1..] == es;
    }
  }

  /** Nothing writes errno but a read that runs dry. */
  ghost predicate NoFailingCalls(es: seq<Event>) {
    forall e :: e in es ==> !e.ReadFails? && !e.OtherCall?
  }

  lemma {:induction false} EagainStays(errno: int, es: seq<Event>)
    requires NoFailingCalls(es) && errno == 11
    ensures LastWrite(errno, es) == 11
    decreases |es|
  {
    if |es| != 0 {
      assert es[|es| - 1] in es;
      EagainStays(errno, es[..|es| - 1]);
    }
  }

  /**
  After a drain that ran dry, on whatever stream, the next close that is met
  without a failing call in between makes RecvData fail and drops the connection.
  */
  lemma CloseAfterDrainFails(s: State, es: seq<Event>)
    requires Enabled(s, RunsDry) && Legal(Apply(s, RunsDry), es) && NoFailingCalls(es)
    requires Enabled(After(Apply(s, RunsDry), es), MeetsClose)
    ensures var u := After(Apply(s, RunsDry), es);
            && u.errno == 11 && Apply(u, MeetsClose).thread == Handling(u.thread.batch)
            && Apply(u, MeetsClose).streams[u.thread.fd].failed
  {
    hide Legal, After;
    var t := Apply(s, RunsDry);
    ErrnoIsLastWrite(t, es);
    EagainStays(t.errno, es);
  }
}
