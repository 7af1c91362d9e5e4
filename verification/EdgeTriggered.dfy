/**
The client thread's event loop against an edge-triggered kernel: bytes arrive and
peers close at any time, the kernel reports a descriptor once per change, and the
thread must drain it before it waits again.
*/
module EdgeTriggered {
  import opened SocketReceive

  /** One opening of a descriptor: a number reused by the system is a new value here, see `Reuse`. */
  type Fd = nat

  const MAX_CLIENT_EVENTS := 100
  const EBADF := 9

  /** What became of the bytes that one call of RecvData collected. */
  datatype Fate = Handed | LostToClose | LostToError

  datatype Piece = Piece(bytes: seq<bv8>, fate: Fate)

  datatype Stream = Stream(
    arrived: seq<bv8>, // everything the network ever brought
    pending: seq<bv8>, // in the socket buffer
    calls: seq<Piece>, // the finished RecvData calls of the client thread
    closed: bool,      // the peer has closed its side
    met: bool,         // and a read has come to the end
    watched: bool,
    failed: bool,      // a read of it has failed, or it was closed here; the connection is being dropped
    open: bool,        // the descriptor
    strayed: bool      // its bytes, or those handed on under its number, were mixed with another's
  )

  const FRESH := Stream([], [], [], false, false, false, false, true, false)

  /** The event mask as the loop tests it. */
  datatype Kind = Readable | WritableOnly | Neither

  datatype Entry = Entry(fd: Fd, kind: Kind)

  datatype Thread =
    | Waiting
    | Handling(batch: seq<Entry>)
    | Draining(fd: Fd, held: seq<bv8>, batch: seq<Entry>)
    | Drained(fd: Fd, held: seq<bv8>, batch: seq<Entry>)
    | Exited

  /** `errno` is the client thread's. */
  datatype State = State(streams: map<Fd, Stream>, ready: set<Fd>, thread: Thread, errno: int)

  datatype Event =
    // the network, the accepting thread, the senders and the other client threads
    | Connect(fd: Fd)
    | Arrive(fd: Fd, bytes: seq<bv8>)
    | PeerCloses(fd: Fd)
    | Watch(fd: Fd)
    | Rearm(fd: Fd)
    | Forget(fd: Fd)
    | Drop(fd: Fd)             // the connection's last owner is gone, after Disconnect or a failing write
    | Reuse(was: Fd, now: Fd)  // what the thread still holds under the number of `was` now names `now`
    | Stray(fd: Fd, n: nat)    // another client thread reads it, for a former owner of its number
    | OtherCall(error: int)    // some other system call of the client thread writes errno
    // the client thread
    | Wait(batch: seq<Entry>)
    | NextEvent
    | Chunk(n: nat)
    | RunsDry
    | MeetsClose
    | ReadFails(error: int)
    | Deliver
    | BatchDone

  predicate ByClientThread(e: Event) {
    e.Wait? || e.NextEvent? || e.Chunk? || e.RunsDry? || e.MeetsClose? || e.ReadFails? || e.Deliver? || e.BatchDone?
  }

  function Fds(batch: seq<Entry>): set<Fd> {
    set e | e in batch :: e.fd
  }

  /** There is something for a read to come upon: bytes, or the end. */
  predicate ReadWorthy(t: Stream) {
    t.pending != [] || t.closed
  }

  /** What one `epoll_wait` may report: ready descriptors, each once, readable if there is something to read. */
  ghost predicate Reportable(s: State, batch: seq<Entry>) {
    && 0 < |batch| <= MAX_CLIENT_EVENTS
    && (forall e :: e in batch ==> e.fd in s.ready && e.fd in s.streams)
    && (forall e :: e in batch && e.fd in s.streams && ReadWorthy(s.streams[e.fd]) ==> e.kind == Readable)
    && |Fds(batch)| == |batch|
  }

  /** The stream being drained can be read and has no bytes left. */
  predicate AtEnd(s: State) {
    s.thread.Draining? && s.thread.fd in s.streams && s.streams[s.thread.fd].open
    && s.streams[s.thread.fd].pending == []
  }

  predicate WorldEnabled(s: State, e: Event) {
    match e
    case Connect(fd) => fd !in s.streams
    case Arrive(fd, bytes) => fd in s.streams && !s.streams[fd].closed && bytes != []
    case PeerCloses(fd) => fd in s.streams && !s.streams[fd].closed
    case Watch(fd) => fd in s.streams && !s.streams[fd].watched && !s.streams[fd].failed
    case Rearm(fd) => fd in s.streams && s.streams[fd].watched
    case Forget(fd) => fd in s.ready && fd in s.streams && !ReadWorthy(s.streams[fd])
    case Drop(fd) => fd in s.streams
    case Reuse(was, now) => was in s.streams && !s.streams[was].open && now in s.streams && s.streams[now].open
    case Stray(fd, n) => fd in s.streams && s.streams[fd].open && 1 <= n <= |s.streams[fd].pending|
    case OtherCall(_) => true
    case _ => false
  }

  ghost predicate ThreadEnabled(s: State, e: Event) {
    match e
    case Wait(batch) => s.thread.Waiting? && Reportable(s, batch)
    case NextEvent => s.thread.Handling? && |s.thread.batch| > 0
    case Chunk(n) =>
      s.thread.Draining? && s.thread.fd in s.streams && s.streams[s.thread.fd].open
      && 1 <= n <= RECV_BUFF_LEN && n <= |s.streams[s.thread.fd].pending|
    case RunsDry => AtEnd(s) && !s.streams[s.thread.fd].closed
    case MeetsClose => AtEnd(s) && s.streams[s.thread.fd].closed
    case ReadFails(error) => s.thread.Draining? && s.thread.fd in s.streams && error != EAGAIN
    case Deliver => s.thread.Drained? && s.thread.fd in s.streams
    case BatchDone => s.thread.Handling? && s.thread.batch == []
    case _ => false
  }

  ghost predicate Enabled(s: State, e: Event) {
    if ByClientThread(e) then ThreadEnabled(s, e) else WorldEnabled(s, e)
  }

  function Renamed(batch: seq<Entry>, was: Fd, now: Fd): seq<Entry> {
    seq(|batch|, i requires 0 <= i < |batch| => if batch[i].fd == was then batch[i].(fd := now) else batch[i])
  }

  function AfterReuse(t: Thread, was: Fd, now: Fd): Thread {
    match t
    case Handling(batch) => Handling(Renamed(batch, was, now))
    case Draining(fd, held, batch) => Draining(if fd == was then now else fd, held, Renamed(batch, was, now))
    case Drained(fd, held, batch) => Drained(if fd == was then now else fd, held, Renamed(batch, was, now))
    case _ => t
  }

  function Held(t: Thread, fd: Fd): seq<bv8> {
    if (t.Draining? || t.Drained?) && t.fd == fd then t.held else []
  }

  function ApplyWorld(s: State, e: Event): State
    requires WorldEnabled(s, e)
  {
    match e
    case Connect(fd) => s.(streams := s.streams[fd := FRESH])
    case Arrive(fd, bytes) =>
      var t := s.streams[fd];
      s.(streams := s.streams[fd := t.(arrived := t.arrived + bytes, pending := t.pending + bytes)],
         ready := if t.watched then s.ready + {fd} else s.ready)
    case PeerCloses(fd) =>
      s.(streams := s.streams[fd := s.streams[fd].(closed := true)],
         ready := if s.streams[fd].watched then s.ready + {fd} else s.ready)
    case Watch(fd) =>
      // EPOLL_CTL_ADD looks at the socket, so what is already there makes it ready.
      var t := s.streams[fd];
      s.(streams := s.streams[fd := t.(watched := true)],
         ready := if ReadWorthy(t) then s.ready + {fd} else s.ready)
    case Rearm(fd) => s.(ready := s.ready + {fd})
    case Forget(fd) => s.(ready := s.ready - {fd})
    case Drop(fd) =>
      // close takes the descriptor out of the epoll set.
      s.(streams := s.streams[fd := s.streams[fd].(watched := false, failed := true, open := false)],
         ready := s.ready - {fd})
    case Reuse(was, now) =>
      var mixed := Held(s.thread, was) != [];
      var t, u := s.streams[was], s.streams[now];
      s.(streams := s.streams[was := t.(strayed := t.strayed || mixed)][now := u.(strayed := u.strayed || mixed)],
         thread := AfterReuse(s.thread, was, now))
    case Stray(fd, n) =>
      var t := s.streams[fd];
      s.(streams := s.streams[fd := t.(pending := t.pending[n..], strayed := true)])
    case OtherCall(error) => s.(errno := error)
  }

  ghost function ApplyThread(s: State, e: Event): State
    requires ThreadEnabled(s, e)
  {
    match e
    case Wait(batch) => s.(ready := s.ready - Fds(batch), thread := Handling(batch))
    case NextEvent =>
      var first, rest := s.thread.batch[0], s.thread.batch[1..];
      match first.kind {
        case Readable => s.(thread := Draining(first.fd, [], rest))
        case WritableOnly => s.(thread := Handling(rest))
        case Neither => s.(thread := Exited)
      }
    case Chunk(n) =>
      var t := s.streams[s.thread.fd];
      s.(streams := s.streams[s.thread.fd := t.(pending := t.pending[n..])],
         thread := Draining(s.thread.fd, s.thread.held + t.pending[..n], s.thread.batch))
    case RunsDry =>
      s.(thread := Drained(s.thread.fd, s.thread.held, s.thread.batch), errno := EAGAIN)
    case MeetsClose =>
      var t := s.streams[s.thread.fd].(met := true);
      if StopIsError([PeerClosed], s.errno) then
        s.(streams := s.streams[s.thread.fd := Lost(t, s.thread.held, LostToClose)],
           thread := Handling(s.thread.batch))
      else
        s.(streams := s.streams[s.thread.fd := t],
           thread := Drained(s.thread.fd, s.thread.held, s.thread.batch))
    case ReadFails(error) =>
      s.(streams := s.streams[s.thread.fd := Lost(s.streams[s.thread.fd], s.thread.held, LostToError)],
         thread := Handling(s.thread.batch), errno := error)
    case Deliver =>
      var t := s.streams[s.thread.fd];
      s.(streams := s.streams[s.thread.fd := t.(calls := t.calls + [Piece(s.thread.held, Handed)])],
         thread := Handling(s.thread.batch))
    case BatchDone => s.(thread := Waiting)
  }

  ghost function Apply(s: State, e: Event): State
    requires Enabled(s, e)
  {
    if ByClientThread(e) then ApplyThread(s, e) else ApplyWorld(s, e)
  }

  /** RecvData returns -1: what it had collected is thrown away with the connection. */
  function Lost(t: Stream, held: seq<bv8>, fate: Fate): Stream {
    t.(failed := true, calls := t.calls + [Piece(held, fate)])
  }

  const INIT := State(map[], {}, Waiting, 0)

  ghost predicate Legal(s: State, es: seq<Event>)
    decreases |es|
  {
    |es| == 0 || (Enabled(s, es[0]) && Legal(Apply(s, es[0]), es[1..]))
  }

  ghost function After(s: State, es: seq<Event>): State
    requires Legal(s, es)
    decreases |es|
  {
    if |es| == 0 then s else After(Apply(s, es[0]), es[1..])
  }

  lemma {:induction false} AfterAppend(s: State, a: seq<Event>, b: seq<Event>)
    requires Legal(s, a) && Legal(After(s, a), b)
    ensures Legal(s, a + b) && After(s, a + b) == After(After(s, a), b)
    decreases |a|
  {
    hide Enabled, Apply;
    if |a| == 0 {
      assert a + b == b;
    } else {
      assert (a + b)[1..] == a[1..] + b;
      AfterAppend(Apply(s, a[0]), a[1..], b);
    }
  }

  lemma OneStep(s: State, e: Event)
    requires Enabled(s, e)
    ensures Legal(s, [e]) && After(s, [e]) == Apply(s, e)
  {
    hide Enabled, Apply;
    var t, rest := Apply(s, e), [e][1..];
    assert rest == [];
    assert Legal(t, rest) && After(t, rest) == t;
  }

  lemma TwoSteps(s: State, e: Event, f: Event)
    requires Enabled(s, e) && Enabled(Apply(s, e), f)
    ensures Legal(s, [e, f]) && After(s, [e, f]) == Apply(Apply(s, e), f)
  {
    hide Enabled, Apply;
    OneStep(Apply(s, e), f);
    assert [e, f][1..] == [f];
  }

  // ------------------------------------------------------------- what the calls collected

  /** All bytes the thread has taken from the socket. */
  function Consumed(calls: seq<Piece>): seq<bv8>
    decreases |calls|
  {
    if |calls| == 0 then [] else Consumed(calls[..|calls| - 1]) + calls[|calls| - 1].bytes
  }

  /** The bytes handed to OnReceiveData. */
  function Delivered(calls: seq<Piece>): seq<bv8>
    decreases |calls|
  {
    if |calls| == 0 then []
    else
      var last := calls[|calls| - 1];
      Delivered(calls[..|calls| - 1]) + if last.fate.Handed? then last.bytes else []
  }

  predicate AllHanded(calls: seq<Piece>) {
    forall k :: 0 <= k < |calls| ==> calls[k].fate.Handed?
  }

  lemma OneMoreCall(calls: seq<Piece>, p: Piece)
    ensures Consumed(calls + [p]) == Consumed(calls) + p.bytes
    ensures Delivered(calls + [p]) == Delivered(calls) + if p.fate.Handed? then p.bytes else []
  {
    assert (calls + [p])[..|calls|] == calls;
  }

  lemma {:induction false} AllHandedDelivers(calls: seq<Piece>)
    requires AllHanded(calls)
    ensures Delivered(calls) == Consumed(calls)
    decreases |calls|
  {
    if |calls| != 0 {
      AllHandedDelivers(calls[..|calls| - 1]);
    }
  }

  /** Calls that brought nothing add nothing. */
  lemma {:induction false} EmptyCallsAddNothing(calls: seq<Piece>, k: nat)
    requires k <= |calls| && forall j :: k <= j < |calls| ==> calls[j].bytes == []
    ensures Consumed(calls) == Consumed(calls[..k]) && Delivered(calls) == Delivered(calls[..k])
    decreases |calls|
  {
    if k == |calls| {
      assert calls[..k] == calls;
    } else {
      EmptyCallsAddNothing(calls[..|calls| - 1], k);
      assert calls[..|calls| - 1][..k] == calls[..k];
    }
  }

  // -------------------------------------------------------------------- invariants

  predicate InBatch(t: Thread, fd: Fd) {
    !t.Waiting? && !t.Exited? && Entry(fd, Readable) in t.batch
  }

  predicate BeingDrained(t: Thread, fd: Fd) {
    t.Draining? && t.fd == fd
  }

  /** Someone will still look at this descriptor. */
  predicate Covered(s: State, fd: Fd) {
    fd in s.ready || InBatch(s.thread, fd) || BeingDrained(s.thread, fd)
  }

  /** The thread could still read bytes or the end of the stream, and has to. */
  predicate Wanting(t: Stream) {
    t.watched && !t.failed && (t.pending != [] || (t.closed && !t.met))
  }

  ghost predicate NoLostWakeup(s: State) {
    !s.thread.Exited? ==> forall fd :: fd in s.streams && Wanting(s.streams[fd]) ==> Covered(s, fd)
  }

  predicate InOrder(t: Stream, held: seq<bv8>) {
    Consumed(t.calls) + held + t.pending == t.arrived
  }

  /** Nothing is lost, repeated or reordered on its way from the network through the reads. */
  ghost predicate AllInOrder(s: State) {
    forall fd :: fd in s.streams && !s.streams[fd].strayed
      ==> InOrder(s.streams[fd], Held(s.thread, fd))
  }

  /** A call whose bytes were lost to a close was the last that had any. */
  ghost predicate ClosedOff(t: Stream, held: seq<bv8>) {
    forall k :: 0 <= k < |t.calls| && t.calls[k].fate.LostToClose?
      ==> t.closed && t.pending == [] && held == [] && forall j :: k < j < |t.calls| ==> t.calls[j].bytes == []
  }

  /** A stream that has not failed has lost nothing, and one that has was closed off by the loss. */
  ghost predicate FatesOf(t: Stream, held: seq<bv8>) {
    (!t.failed ==> AllHanded(t.calls)) && (!t.strayed ==> ClosedOff(t, held))
  }

  ghost predicate FatesMatch(s: State) {
    forall fd :: fd in s.streams ==> FatesOf(s.streams[fd], Held(s.thread, fd))
  }

  ghost predicate WellPlaced(s: State) {
    && s.ready <= s.streams.Keys && (forall fd :: fd in s.ready && fd in s.streams ==> s.streams[fd].watched)
    && (!s.thread.Waiting? && !s.thread.Exited? ==> Fds(s.thread.batch) <= s.streams.Keys)
    && ((s.thread.Draining? || s.thread.Drained?) ==> s.thread.fd in s.streams)
    && (forall fd :: fd in s.streams && !s.streams[fd].open ==> s.streams[fd].failed)
  }

  ghost predicate Inv(s: State) {
    NoLostWakeup(s) && AllInOrder(s) && FatesMatch(s) && WellPlaced(s)
  }

  lemma RenamedKeeps(batch: seq<Entry>, was: Fd, now: Fd, e: Entry)
    requires e in batch && e.fd != was
    ensures e in Renamed(batch, was, now)
  {
    var i :| 0 <= i < |batch| && batch[i] == e;
    assert Renamed(batch, was, now)[i] == e;
  }

  lemma CoveredAfterReuse(s: State, was: Fd, now: Fd, fd: Fd)
    requires Enabled(s, Reuse(was, now)) && Covered(s, fd) && fd != was
    ensures Covered(Apply(s, Reuse(was, now)), fd)
  {
    if InBatch(s.thread, fd) {
      RenamedKeeps(s.thread.batch, was, now, Entry(fd, Readable));
    }
  }

  lemma NoLostWakeupReuse(s: State, was: Fd, now: Fd)
    requires NoLostWakeup(s) && WellPlaced(s) && Enabled(s, Reuse(was, now))
    ensures NoLostWakeup(Apply(s, Reuse(was, now)))
  {
    hide Covered;
    var u := Apply(s, Reuse(was, now));
    if !u.thread.Exited? {
      forall fd | fd in u.streams && Wanting(u.streams[fd])
        ensures Covered(u, fd)
      {
        CoveredAfterReuse(s, was, now, fd);
      }
    }
  }

  lemma NoLostWakeupWorld(s: State, e: Event)
    requires NoLostWakeup(s) && WorldEnabled(s, e) && !e.Reuse?
    ensures NoLostWakeup(ApplyWorld(s, e))
  {
  }

  lemma NoLostWakeupThread(s: State, e: Event)
    requires NoLostWakeup(s) && ThreadEnabled(s, e)
    ensures NoLostWakeup(ApplyThread(s, e))
  {
  }

  lemma NoLostWakeupStep(s: State, e: Event)
    requires NoLostWakeup(s) && WellPlaced(s) && Enabled(s, e)
    ensures NoLostWakeup(Apply(s, e))
  {
    hide NoLostWakeup, WellPlaced, ThreadEnabled, WorldEnabled, ApplyThread, ApplyWorld;
    if e.Reuse? {
      NoLostWakeupReuse(s, e.was, e.now);
    } else if ByClientThread(e) {
      NoLostWakeupThread(s, e);
    } else {
      NoLostWakeupWorld(s, e);
    }
  }

  lemma BytesMove(d: seq<bv8>, h: seq<bv8>, p: seq<bv8>, b: seq<bv8>, n: nat)
    requires n <= |p|
    ensures d + (h + p[..n]) + p[n..] == d + h + p
    ensures (d + h) + [] + p == d + h + p
    ensures d + h + (p + b) == (d + h + p) + b
  {
  }

  lemma InOrderWorld(s: State, e: Event, fd: Fd)
    requires WorldEnabled(s, e) && fd in s.streams && !ApplyWorld(s, e).streams[fd].strayed
    requires !s.streams[fd].strayed ==> InOrder(s.streams[fd], Held(s.thread, fd))
    ensures InOrder(ApplyWorld(s, e).streams[fd], Held(ApplyWorld(s, e).thread, fd))
  {
    hide Renamed, Consumed;
    var t := s.streams[fd];
    BytesMove(Consumed(t.calls), Held(s.thread, fd), t.pending, if e.Arrive? then e.bytes else [], 0);
  }

  lemma InOrderThread(s: State, e: Event, fd: Fd)
    requires ThreadEnabled(s, e) && fd in s.streams && InOrder(s.streams[fd], Held(s.thread, fd))
    ensures InOrder(ApplyThread(s, e).streams[fd], Held(ApplyThread(s, e).thread, fd))
  {
    hide Consumed, Reportable;
    var t, h := s.streams[fd], Held(s.thread, fd);
    BytesMove(Consumed(t.calls), h, t.pending, [], if e.Chunk? && BeingDrained(s.thread, fd) then e.n else 0);
    if e.MeetsClose? {
      OneMoreCall(t.calls, Piece(h, LostToClose));
    } else if e.ReadFails? {
      OneMoreCall(t.calls, Piece(h, LostToError));
    } else if e.Deliver? {
      OneMoreCall(t.calls, Piece(h, Handed));
    }
  }

  /** Streams come only from `Connect`, and come fresh; and no step takes a stray byte back. */
  lemma StreamsStay(s: State, e: Event, fd: Fd)
    requires WellPlaced(s) && Enabled(s, e) && fd in Apply(s, e).streams
    ensures fd !in s.streams ==> Apply(s, e).streams[fd] == FRESH && Held(Apply(s, e).thread, fd) == []
    ensures fd in s.streams && s.streams[fd].strayed ==> Apply(s, e).streams[fd].strayed
    ensures fd in s.streams && s.streams[fd].failed ==> Apply(s, e).streams[fd].failed
  {
    hide Renamed, Reportable, Consumed;
    if ByClientThread(e) {
      hide ApplyWorld, WorldEnabled;
    } else {
      hide ApplyThread, ThreadEnabled;
    }
  }

  lemma AllInOrderStep(s: State, e: Event)
    requires AllInOrder(s) && WellPlaced(s) && Enabled(s, e)
    ensures AllInOrder(Apply(s, e))
  {
    hide WellPlaced, ThreadEnabled, WorldEnabled, ApplyThread, ApplyWorld, InOrder, Held;
    var u := Apply(s, e);
    forall fd | fd in u.streams && !u.streams[fd].strayed
      ensures InOrder(u.streams[fd], Held(u.thread, fd))
    {
      StreamsStay(s, e, fd);
      if fd !in s.streams {
        FreshInOrder();
      } else if ByClientThread(e) {
        InOrderThread(s, e, fd);
      } else {
        InOrderWorld(s, e, fd);
      }
    }
  }

  lemma FreshInOrder()
    ensures InOrder(FRESH, []) && ClosedOff(FRESH, []) && AllHanded(FRESH.calls)
  {
  }

  lemma FatesWorld(s: State, e: Event, fd: Fd)
    requires WorldEnabled(s, e) && fd in s.streams && FatesOf(s.streams[fd], Held(s.thread, fd))
    ensures FatesOf(ApplyWorld(s, e).streams[fd], Held(ApplyWorld(s, e).thread, fd))
  {
    hide Renamed;
  }

  lemma FatesThread(s: State, e: Event, fd: Fd)
    requires ThreadEnabled(s, e) && fd in s.streams && FatesOf(s.streams[fd], Held(s.thread, fd))
    ensures FatesOf(ApplyThread(s, e).streams[fd], Held(ApplyThread(s, e).thread, fd))
  {
    hide Reportable;
  }

  lemma FatesMatchStep(s: State, e: Event)
    requires FatesMatch(s) && WellPlaced(s) && Enabled(s, e)
    ensures FatesMatch(Apply(s, e))
  {
    hide WellPlaced, ThreadEnabled, WorldEnabled, ApplyThread, ApplyWorld, FatesOf, Held;
    var u := Apply(s, e);
    forall fd | fd in u.streams
      ensures FatesOf(u.streams[fd], Held(u.thread, fd))
    {
      StreamsStay(s, e, fd);
      if fd !in s.streams {
        FreshFates();
      } else if ByClientThread(e) {
        FatesThread(s, e, fd);
      } else {
        FatesWorld(s, e, fd);
      }
    }
  }

  lemma FreshFates()
    ensures FatesOf(FRESH, [])
  {
  }

  lemma WellPlacedReuse(s: State, was: Fd, now: Fd)
    requires WellPlaced(s) && WorldEnabled(s, Reuse(was, now))
    ensures WellPlaced(ApplyWorld(s, Reuse(was, now)))
  {
  }

  lemma WellPlacedWorld(s: State, e: Event)
    requires WellPlaced(s) && WorldEnabled(s, e) && !e.Reuse?
    ensures WellPlaced(ApplyWorld(s, e))
  {
  }

  lemma WellPlacedThread(s: State, e: Event)
    requires WellPlaced(s) && ThreadEnabled(s, e)
    ensures WellPlaced(ApplyThread(s, e))
  {
  }

  lemma WellPlacedStep(s: State, e: Event)
    requires WellPlaced(s) && Enabled(s, e)
    ensures WellPlaced(Apply(s, e))
  {
    hide WellPlaced, ThreadEnabled, WorldEnabled, ApplyThread, ApplyWorld;
    if ByClientThread(e) {
      WellPlacedThread(s, e);
    } else if e.Reuse? {
      WellPlacedReuse(s, e.was, e.now);
    } else {
      WellPlacedWorld(s, e);
    }
  }

  lemma InvStep(s: State, e: Event)
    requires Inv(s) && Enabled(s, e)
    ensures Inv(Apply(s, e))
  {
    hide Enabled, Apply, NoLostWakeup, AllInOrder, FatesMatch, WellPlaced;
    NoLostWakeupStep(s, e);
    AllInOrderStep(s, e);
    FatesMatchStep(s, e);
    WellPlacedStep(s, e);
  }

  lemma {:induction false} InvAlways(s: State, es: seq<Event>)
    requires Inv(s) && Legal(s, es)
    ensures Inv(After(s, es))
    decreases |es|
  {
    hide Enabled, Apply, Inv;
    if |es| != 0 {
      InvStep(s, es[0]);
      InvAlways(Apply(s, es[0]), es[1..]);
    }
  }

  // ---------------------------------------------------------------------- the promises

  ghost predicate Reachable(s: State) {
    exists es: seq<Event> :: Legal(INIT, es) && After(INIT, es) == s
  }

  lemma ReachableInv(s: State)
    requires Reachable(s)
    ensures Inv(s)
  {
    hide Enabled, Apply, Legal, After;
    var es: seq<Event> :| Legal(INIT, es) && After(INIT, es) == s;
    InvAlways(INIT, es);
  }

  /** Everything that came in on a live, watched stream has been handed on, and its end has been met. */
  ghost predicate AllDelivered(s: State) {
    forall fd :: fd in s.streams && s.streams[fd].watched && !s.streams[fd].failed && !s.streams[fd].strayed
      ==> var t := s.streams[fd]; Delivered(t.calls) == t.arrived && (t.closed ==> t.met)
  }

  /** Nothing left for the client thread to do until the network moves. */
  predicate Asleep(s: State) {
    s.thread.Waiting? && s.ready == {}
  }

  /**
  No wakeup is lost and no byte misplaced: in every reachable state of a thread
  that has not exited, each stream with readable bytes or an end not yet met is
  ready, in the rest of the current batch, or being drained; and on every stream
  that no other's bytes were mixed with, what the calls collected, what is held
  and what is pending make up what arrived. Hence a thread that sleeps has
  delivered everything.
  */
  lemma NoWakeupIsLost(s: State)
    requires Reachable(s)
    ensures NoLostWakeup(s) && AllInOrder(s)
    ensures Asleep(s) ==> AllDelivered(s)
  {
    hide Delivered, Consumed;
    ReachableInv(s);
    if Asleep(s) {
      AsleepDelivered(s);
    }
  }

  // ------------------------------------------------------------- the thread gets there

  function Stage(t: Thread): nat {
    match t
    case Waiting => 0
    case Handling(batch) => 3 * |batch| + 1
    case Draining(_, _, batch) => 3 * |batch| + 3
    case Drained(_, _, batch) => 3 * |batch| + 2
    case Exited => 0
  }

  function Work(s: State): nat {
    5 * |s.ready| + Stage(s.thread)
  }

  /** Bytes still to be read from the stream being drained. */
  function LeftToRead(s: State): nat {
    if s.thread.Draining? && s.thread.fd in s.streams then |s.streams[s.thread.fd].pending| else 0
  }

  lemma BatchLeavesReady(s: State, batch: seq<Entry>)
    requires Reportable(s, batch)
    ensures |s.ready - Fds(batch)| == |s.ready| - |batch|
  {
    assert Fds(batch) <= s.ready;
    assert |s.ready - Fds(batch)| + |Fds(batch)| == |s.ready| by {
      assert s.ready == (s.ready - Fds(batch)) + Fds(batch);
    }
  }

  predicate LessToDo(s: State, u: State) {
    Work(u) < Work(s) || (Work(u) == Work(s) && LeftToRead(u) < LeftToRead(s))
  }

  predicate OfRead(e: Event) {
    e.Chunk? || e.RunsDry? || e.MeetsClose? || e.ReadFails? || e.Deliver?
  }

  lemma ReadStepShrinks(s: State, e: Event)
    requires ThreadEnabled(s, e) && OfRead(e)
    ensures LessToDo(s, ApplyThread(s, e))
  {
  }

  lemma BatchStepShrinks(s: State, e: Event)
    requires ThreadEnabled(s, e) && !OfRead(e)
    ensures LessToDo(s, ApplyThread(s, e))
  {
    if e.Wait? {
      BatchLeavesReady(s, e.batch);
    }
  }

  /** Without new arrivals the thread cannot go on forever: each of its steps leaves less to do. */
  lemma ThreadStepShrinks(s: State, e: Event)
    requires Enabled(s, e) && ByClientThread(e)
    ensures LessToDo(s, Apply(s, e))
  {
    hide ThreadEnabled, ApplyThread, LessToDo;
    if OfRead(e) {
      ReadStepShrinks(s, e);
    } else {
      BatchStepShrinks(s, e);
    }
  }

  predicate MeetsNeither(t: Thread) {
    !t.Waiting? && !t.Exited? && exists e :: e in t.batch && e.kind == Neither
  }

  /** No event without readiness is reported, and no read fails except on a closed descriptor. */
  predicate Faultless(s: State, e: Event) {
    && (e.Wait? ==> forall entry :: entry in e.batch ==> entry.kind != Neither)
    && (e.ReadFails? && s.thread.Draining? && s.thread.fd in s.streams ==> !s.streams[s.thread.fd].open)
  }

  /** A step the client thread takes by itself while nothing goes wrong. */
  predicate OwnStep(s: State, e: Event) {
    ByClientThread(e) && Faultless(s, e)
  }

  /** Unless it sleeps or has exited, the thread always has a step that is not a failure. */
  lemma ThreadNeverStuck(s: State) returns (e: Event)
    requires WellPlaced(s) && !s.thread.Exited? && !Asleep(s)
    ensures Enabled(s, e) && OwnStep(s, e)
  {
    match s.thread
    case Waiting =>
      var fd :| fd in s.ready;
      var batch := [Entry(fd, Readable)];
      assert batch[0] in batch;
      assert Fds(batch) == {fd};
      e := Wait(batch);
    case Handling(batch) =>
      e := if |batch| == 0 then BatchDone else NextEvent;
    case Draining(fd, _, _) =>
      var t := s.streams[fd];
      e := if !t.open then ReadFails(EBADF) else if t.pending != [] then Chunk(1)
           else if t.closed then MeetsClose else RunsDry;
    case Drained(_, _, _) =>
      e := Deliver;
  }

  lemma OwnStepStaysAlive(s: State, e: Event)
    requires Enabled(s, e) && OwnStep(s, e) && !s.thread.Exited? && !MeetsNeither(s.thread)
    ensures !Apply(s, e).thread.Exited? && !MeetsNeither(Apply(s, e).thread)
  {
    if e.NextEvent? {
      assert s.thread.batch[0] in s.thread.batch;
    }
  }

  ghost predicate OwnRun(s: State, es: seq<Event>)
    requires Legal(s, es)
    decreases |es|
  {
    |es| == 0 || (OwnStep(s, es[0]) && OwnRun(Apply(s, es[0]), es[1..]))
  }

  /** The thread has no step left. */
  ghost predicate Spent(s: State) {
    forall e :: OwnStep(s, e) ==> !Enabled(s, e)
  }

  lemma SpentIsDelivered(s: State)
    requires Inv(s) && !s.thread.Exited? && Spent(s)
    ensures Asleep(s) && AllDelivered(s)
  {
    if !Asleep(s) {
      var e := ThreadNeverStuck(s);
      assert false;
    } else {
      AsleepDelivered(s);
    }
  }

  /**
  Whatever batches the kernel reports and however it cuts the bytes, a thread
  left to itself until it has no step left has delivered everything; such runs
  cannot go on forever (`ThreadStepShrinks`).
  */
  lemma {:induction false} EventuallyDelivered(s: State, es: seq<Event>)
    requires Inv(s) && !s.thread.Exited? && !MeetsNeither(s.thread)
    requires Legal(s, es) && OwnRun(s, es) && Spent(After(s, es))
    ensures Asleep(After(s, es)) && AllDelivered(After(s, es))
    decreases |es|
  {
    hide Enabled, Apply, NoLostWakeup, AllInOrder, FatesMatch, WellPlaced, AllDelivered, OwnStep, MeetsNeither, Asleep;
    if |es| == 0 {
      SpentIsDelivered(s);
    } else {
      OwnStepStaysAlive(s, es[0]);
      InvStep(s, es[0]);
      EventuallyDelivered(Apply(s, es[0]), es[1..]);
    }
  }

  /** And there is such a run from every state of a thread that has not met such an event. */
  lemma {:induction false} DeliverySchedule(s: State) returns (es: seq<Event>)
    requires Inv(s) && !s.thread.Exited? && !MeetsNeither(s.thread)
    ensures Legal(s, es) && OwnRun(s, es)
    ensures Asleep(After(s, es)) && AllDelivered(After(s, es))
    decreases Work(s), LeftToRead(s)
  {
    hide Enabled, Apply, NoLostWakeup, AllInOrder, FatesMatch, WellPlaced, AllDelivered, OwnStep, MeetsNeither, Asleep;
    hide Work, LeftToRead, ByClientThread;
    if Asleep(s) {
      es := [];
      AsleepDelivered(s);
    } else {
      var e := ThreadNeverStuck(s);
      assert ByClientThread(e) by {
        OwnIsClients(s, e);
      }
      ThreadStepShrinks(s, e);
      OwnStepStaysAlive(s, e);
      InvStep(s, e);
      var rest := DeliverySchedule(Apply(s, e));
      es := [e] + rest;
      assert es[1..] == rest;
    }
  }

  lemma OwnIsClients(s: State, e: Event)
    requires OwnStep(s, e)
    ensures ByClientThread(e)
  {
  }

  lemma AsleepDelivered(s: State)
    requires Inv(s) && Asleep(s)
    ensures AllDelivered(s)
  {
    hide Delivered, Consumed;
    forall fd | fd in s.streams && s.streams[fd].watched && !s.streams[fd].failed && !s.streams[fd].strayed
      ensures Delivered(s.streams[fd].calls) == s.streams[fd].arrived && (s.streams[fd].closed ==> s.streams[fd].met)
    {
      assert !Covered(s, fd);
      assert s.streams[fd].pending == [];
      AllHandedDelivers(s.streams[fd].calls);
    }
  }

  // --------------------------------------------------------------- what a close costs

  /** What has become of the stream when the call that met its end is over. */
  ghost function AfterClose(s: State): State
    requires Enabled(s, MeetsClose)
  {
    var u := Apply(s, MeetsClose);
    if u.thread.Drained? then Apply(u, Deliver) else u
  }

  /**
  A call that meets the peer's close hands on what it has read exactly if the
  left-over errno is 0 or EINTR; the connection is dropped otherwise, and what the
  application misses of the whole stream is precisely what that call had read.
  */
  lemma CloseDeliversExactly(s: State)
    requires Inv(s) && Enabled(s, MeetsClose)
    requires !s.streams[s.thread.fd].failed && !s.streams[s.thread.fd].strayed
    ensures var fd, quiet := s.thread.fd, s.errno == 0 || s.errno == EINTR;
            var t := AfterClose(s).streams[fd];
            && (t.failed <==> !quiet)
            && Delivered(t.calls) + (if quiet then [] else s.thread.held) == t.arrived
            && (Delivered(t.calls) == t.arrived <==> quiet || s.thread.held == [])
  {
    hide Delivered, Consumed;
    var t, held := s.streams[s.thread.fd], s.thread.held;
    AllHandedDelivers(t.calls);
    OneMoreCall(t.calls, Piece(held, LostToClose));
    OneMoreCall(t.calls, Piece(held, Handed));
    assert Consumed(t.calls) + held + [] == t.arrived;
    if Delivered(t.calls) == t.arrived {
      assert |held| == 0;
    }
  }

  /** A call that is interrupted just before hides the close: what was read is delivered, and nobody is told. */
  lemma InterruptedCloseIsHidden(s: State)
    requires Enabled(s, MeetsClose)
    ensures var fd, es := s.thread.fd, [OtherCall(4), MeetsClose];
            && Legal(s, es) && After(s, es).thread == Drained(fd, s.thread.held, s.thread.batch)
            && After(s, es).streams[fd] == s.streams[fd].(met := true)
  {
    hide Legal, After;
    TwoSteps(s, OtherCall(4), MeetsClose);
  }

  /** The first thing a thread ever reads is a peer's close: errno is still 0, and the close goes unnoticed. */
  lemma FirstCloseIsHidden(fd: Fd) returns (es: seq<Event>)
    ensures es == [Connect(fd), Watch(fd)] + [PeerCloses(fd)] + [Wait([Entry(fd, Readable)]), NextEvent]
                  + [MeetsClose]
    ensures Legal(INIT, es) && fd in After(INIT, es).streams
    ensures var t := After(INIT, es).streams[fd]; t.closed && t.met && !t.failed && t.open
  {
    hide Legal, After, Enabled, Apply;
    Admitted(INIT, fd);
    es := [Connect(fd), Watch(fd)];
    ClosesNow(After(INIT, es), fd);
    AfterAppend(INIT, es, [PeerCloses(fd)]);
    es := es + [PeerCloses(fd)];
    TakenUp(After(INIT, es), fd);
    AfterAppend(INIT, es, [Wait([Entry(fd, Readable)]), NextEvent]);
    es := es + [Wait([Entry(fd, Readable)]), NextEvent];
    MeetsCloseQuietly(After(INIT, es));
    AfterAppend(INIT, es, [MeetsClose]);
    es := es + [MeetsClose];
  }

  lemma Admitted(s: State, fd: Fd)
    requires fd !in s.streams
    ensures var es := [Connect(fd), Watch(fd)];
            && Legal(s, es) && After(s, es) == s.(streams := s.streams[fd := FRESH.(watched := true)])
  {
    hide Legal, After;
    TwoSteps(s, Connect(fd), Watch(fd));
  }

  lemma ClosesNow(s: State, fd: Fd)
    requires fd in s.streams && s.streams[fd].watched && !s.streams[fd].closed
    ensures var es := [PeerCloses(fd)];
            && Legal(s, es)
            && After(s, es) == s.(streams := s.streams[fd := s.streams[fd].(closed := true)], ready := s.ready + {fd})
  {
    hide Legal, After;
    OneStep(s, PeerCloses(fd));
  }

  lemma MeetsCloseQuietly(s: State)
    requires AtEnd(s) && s.streams[s.thread.fd].closed && s.errno == 0
    ensures Legal(s, [MeetsClose]) && s.thread.fd in After(s, [MeetsClose]).streams
    ensures After(s, [MeetsClose]).streams[s.thread.fd] == s.streams[s.thread.fd].(met := true)
  {
    hide Legal, After;
    OneStep(s, MeetsClose);
  }

  /** And so it remains: the close was the end, and later reads of the stream bring nothing. */
  lemma CloseCostsLastCall(s: State, fd: Fd, k: nat)
    requires Inv(s) && fd in s.streams && !s.streams[fd].strayed
    requires k < |s.streams[fd].calls| && s.streams[fd].calls[k].fate.LostToClose?
    requires AllHanded(s.streams[fd].calls[..k])
    ensures var t := s.streams[fd];
            && Delivered(t.calls) + t.calls[k].bytes == t.arrived
            && (Delivered(t.calls) == t.arrived <==> t.calls[k].bytes == [])
  {
    hide Delivered, Consumed;
    var t := s.streams[fd];
    var before, p := t.calls[..k], t.calls[k];
    assert ClosedOff(t, Held(s.thread, fd));
    EmptyCallsAddNothing(t.calls, k + 1);
    assert t.calls[..k + 1] == before + [p];
    OneMoreCall(before, p);
    AllHandedDelivers(before);
    assert Consumed(t.calls) + [] + [] == t.arrived;
    if Delivered(t.calls) == t.arrived {
      assert |p.bytes| == 0;
    }
  }

  /**
  The input that fails: to a thread that sleeps with the EAGAIN of its last drain
  in errno, bytes that come together with the close are lost.
  */
  lemma LastBytesLost(s: State, fd: Fd, bytes: seq<bv8>) returns (es: seq<Event>)
    requires Inv(s) && Asleep(s) && s.errno == EAGAIN && fd in s.streams
    requires var t := s.streams[fd]; t.watched && !t.failed && !t.strayed && t.open && !t.closed
    requires 1 <= |bytes| <= 10240
    ensures es == [Arrive(fd, bytes), PeerCloses(fd), Wait([Entry(fd, Readable)]), NextEvent,
                   Chunk(|bytes|), MeetsClose]
    ensures Legal(s, es)
    ensures var t := After(s, es).streams;
            && fd in t && t[fd].failed && t[fd].pending == [] && t[fd].arrived == s.streams[fd].arrived + bytes
            && Delivered(t[fd].calls) == s.streams[fd].arrived
  {
    hide Legal, After, Delivered, Consumed, Inv, AllDelivered, Enabled, Apply, Reads, Gives;
    var t, entry, script := s.streams[fd], Entry(fd, Readable), [Data(bytes), PeerClosed];
    DeliveredSoFar(s, fd);
    BytesAndClose(s, fd, bytes);
    var s2 := After(s, [Arrive(fd, bytes), PeerCloses(fd)]);
    TakenUp(s2, fd);
    AfterAppend(s, [Arrive(fd, bytes), PeerCloses(fd)], [Wait([entry]), NextEvent]);
    var s4 := After(s2, [Wait([entry]), NextEvent]);
    LastScript(s4.streams[fd], bytes);
    DrainIsRecvData(s4, script);
    es := [Arrive(fd, bytes), PeerCloses(fd)] + [Wait([entry]), NextEvent];
    AfterAppend(s, es, Reads(script));
    es := es + Reads(script);
    assert [] + bytes == bytes;
    OneMoreCall(t.calls, Piece(bytes, LostToClose));
  }

  lemma DeliveredSoFar(s: State, fd: Fd)
    requires Inv(s) && Asleep(s) && fd in s.streams
    requires var t := s.streams[fd]; t.watched && !t.failed && !t.strayed
    ensures s.streams[fd].pending == [] && Delivered(s.streams[fd].calls) == s.streams[fd].arrived
  {
    hide Delivered, Consumed;
    NothingPending(s, fd);
    AsleepDelivered(s);
  }

  lemma LastScript(t: Stream, bytes: seq<bv8>)
    requires t.open && t.closed && t.pending == bytes && 1 <= |bytes| <= RECV_BUFF_LEN
    ensures var script := [Data(bytes), PeerClosed];
            && Gives(t, script) && Stop(script) == PeerClosed && Received(script) == bytes
            && Reads(script) == [Chunk(|bytes|), MeetsClose]
  {
    var script := [Data(bytes), PeerClosed];
    assert script[1..] == [PeerClosed];
    assert Received([PeerClosed]) == [] && bytes + [] == bytes;
    assert Stop([PeerClosed]) == PeerClosed && Stop(script) == Stop(script[1..]);
  }

  lemma BytesAndClose(s: State, fd: Fd, bytes: seq<bv8>)
    requires fd in s.streams && s.streams[fd].watched && !s.streams[fd].closed && bytes != []
    ensures var t, es := s.streams[fd], [Arrive(fd, bytes), PeerCloses(fd)];
            && Legal(s, es)
            && After(s, es) == s.(streams := s.streams[fd := t.(arrived := t.arrived + bytes,
                                                                  pending := t.pending + bytes, closed := true)],
                                  ready := s.ready + {fd})
  {
    hide Legal, After;
    TwoSteps(s, Arrive(fd, bytes), PeerCloses(fd));
  }

  lemma TakenUp(s: State, fd: Fd)
    requires s.thread.Waiting? && fd in s.ready && fd in s.streams
    ensures var es := [Wait([Entry(fd, Readable)]), NextEvent];
            Legal(s, es) && After(s, es) == s.(ready := s.ready - {fd}, thread := Draining(fd, [], []))
  {
    hide Legal, After;
    var batch := [Entry(fd, Readable)];
    assert batch[0] in batch && Fds(batch) == {fd} && batch[1..] == [];
    TwoSteps(s, Wait(batch), NextEvent);
  }

  lemma NothingPending(s: State, fd: Fd)
    requires Inv(s) && Asleep(s) && fd in s.streams && s.streams[fd].watched && !s.streams[fd].failed
    ensures s.streams[fd].pending == []
  {
    assert !Covered(s, fd);
  }

  // ------------------------------------------------------------ when a number is reused

  /**
  A number reused while its former stream is being read hands that stream's bytes
  on as the new one's, to which nothing has come yet.
  */
  lemma ReuseMixesStreams(s: State, now: Fd) returns (es: seq<Event>)
    requires s.thread.Draining? && s.thread.held != [] && s.thread.fd in s.streams && s.thread.fd != now
    requires now in s.streams && s.streams[now] == FRESH
    ensures es == [Drop(s.thread.fd), Reuse(s.thread.fd, now), RunsDry, Deliver] && Legal(s, es)
    ensures now in After(s, es).streams
    ensures var t := After(s, es).streams[now];
            t.arrived == [] && Delivered(t.calls) == s.thread.held && t.strayed
  {
    hide Legal, After, Delivered, Consumed, Enabled, Apply;
    var was := s.thread.fd;
    NumberTaken(s, now);
    var s2 := After(s, [Drop(was), Reuse(was, now)]);
    ReadAsNew(s2);
    OneMoreCall([], Piece(s.thread.held, Handed));
    NothingDelivered();
    assert [] + s.thread.held == s.thread.held;
    AfterAppend(s, [Drop(was), Reuse(was, now)], [RunsDry, Deliver]);
    es := [Drop(was), Reuse(was, now)] + [RunsDry, Deliver];
  }

  /** An event left over for a former owner of the number is taken for the new one's. */
  lemma LeftOverReadsNewOwner(s: State, was: Fd, now: Fd, rest: seq<Entry>)
    requires s.thread == Handling([Entry(was, Readable)] + rest) && Enabled(s, Reuse(was, now))
    ensures var es := [Reuse(was, now), NextEvent];
            && Legal(s, es) && After(s, es).thread.Draining? && After(s, es).thread.fd == now
            && After(s, es).thread.held == [] && |After(s, es).thread.batch| == |rest|
            && forall i :: 0 <= i < |rest|
                 ==> After(s, es).thread.batch[i] == if rest[i].fd == was then Entry(now, rest[i].kind) else rest[i]
  {
    hide Legal, After;
    RenamedFirst(Entry(was, Readable), rest, was, now);
    RenamedEach(rest, was, now);
    hide Renamed;
    TwoSteps(s, Reuse(was, now), NextEvent);
  }

  lemma RenamedEach(batch: seq<Entry>, was: Fd, now: Fd)
    ensures |Renamed(batch, was, now)| == |batch|
    ensures forall i :: 0 <= i < |batch|
              ==> Renamed(batch, was, now)[i] == if batch[i].fd == was then Entry(now, batch[i].kind) else batch[i]
  {
  }

  lemma RenamedFirst(first: Entry, rest: seq<Entry>, was: Fd, now: Fd)
    requires first.fd == was
    ensures var batch := [first] + rest;
            && |Renamed(batch, was, now)| == |rest| + 1
            && Renamed(batch, was, now)[0] == Entry(now, first.kind)
            && Renamed(batch, was, now)[1..] == Renamed(rest, was, now)
  {
    var batch := [first] + rest;
    assert forall i :: 0 <= i < |rest| ==> rest[i] == batch[i + 1];
  }

  /** Bytes already read when the number is reused are handed on under it. */
  lemma ReadBeforeReuse(s: State, now: Fd)
    requires s.thread.Drained? && s.thread.fd in s.streams && Enabled(s, Reuse(s.thread.fd, now))
    ensures var es := [Reuse(s.thread.fd, now), Deliver];
            && Legal(s, es) && now in After(s, es).streams
            && After(s, es).streams[now].calls == s.streams[now].calls + [Piece(s.thread.held, Handed)]
  {
    hide Legal, After, Renamed;
    TwoSteps(s, Reuse(s.thread.fd, now), Deliver);
  }

  lemma NumberTaken(s: State, now: Fd)
    requires s.thread.Draining? && s.thread.held != [] && s.thread.fd in s.streams && s.thread.fd != now
    requires now in s.streams && s.streams[now] == FRESH
    ensures var es := [Drop(s.thread.fd), Reuse(s.thread.fd, now)];
            && Legal(s, es) && now in After(s, es).streams && After(s, es).streams[now] == FRESH.(strayed := true)
            && AtEnd(After(s, es)) && !After(s, es).streams[now].closed
            && After(s, es).thread.Draining? && After(s, es).thread.fd == now
            && After(s, es).thread.held == s.thread.held
  {
    hide Legal, After, Renamed;
    TwoSteps(s, Drop(s.thread.fd), Reuse(s.thread.fd, now));
  }

  lemma ReadAsNew(s: State)
    requires AtEnd(s) && !s.streams[s.thread.fd].closed
    ensures var fd, es := s.thread.fd, [RunsDry, Deliver];
            && Legal(s, es) && fd in After(s, es).streams
            && After(s, es).streams[fd]
               == s.streams[fd].(calls := s.streams[fd].calls + [Piece(s.thread.held, Handed)])
  {
    hide Legal, After;
    TwoSteps(s, RunsDry, Deliver);
  }

  lemma NothingDelivered()
    ensures Delivered([]) == []
  {
  }

  // ------------------------------------------------------------------ after an exit

  /** An event with neither readiness, and no other, ends the thread. */
  lemma NeitherEndsThread(s: State)
    requires Enabled(s, NextEvent)
    ensures Apply(s, NextEvent).thread.Exited? <==> s.thread.batch[0].kind == Neither
  {
  }

  /**
  A remark: once an event with neither readiness has ended the thread, it takes
  no step, so nothing is ever delivered again.
  */
  lemma {:induction false} ExitStrands(s: State, es: seq<Event>)
    requires s.thread.Exited? && Legal(s, es)
    ensures var u := After(s, es);
            && u.thread.Exited? && s.streams.Keys <= u.streams.Keys
            && forall fd :: fd in u.streams
                 ==> u.streams[fd].calls == if fd in s.streams then s.streams[fd].calls else []
    decreases |es|
  {
    hide ApplyWorld, WorldEnabled;
    if |es| != 0 {
      ExitStays(s, es[0]);
      ExitStrands(Apply(s, es[0]), es[1..]);
    }
  }

  lemma ExitStays(s: State, e: Event)
    requires s.thread.Exited? && WorldEnabled(s, e)
    ensures var u := ApplyWorld(s, e);
            && u.thread.Exited? && s.streams.Keys <= u.streams.Keys
            && forall fd :: fd in u.streams
                 ==> u.streams[fd].calls == if fd in s.streams then s.streams[fd].calls else []
  {
  }

  // ------------------------------------------------- the drain and the loop that does it

  /** The reads of one `RecvData` call as steps of this system. */
  function Reads(script: Script): (es: seq<Event>)
    decreases |script|
  {
    match Next(script)
    case Data(bytes) => [Chunk(|bytes|)] + Reads(script[1..])
    case PeerClosed => [MeetsClose]
    case Failed(error) => if error == EAGAIN then [RunsDry] else [ReadFails(error)]
  }

  /** The script is one that the stream can give. */
  ghost predicate Gives(t: Stream, script: Script) {
    && t.open && WellFormed(script) && t.pending == Received(script)
    && (Stop(script).PeerClosed? ==> t.closed) && (Stop(script) == Failed(EAGAIN) ==> !t.closed)
  }

  /** What a failing call has collected, and loses. */
  function ThrownAway(s: State, script: Script): seq<Piece>
    requires s.thread.Draining?
  {
    if !StopIsError(script, s.errno) then []
    else [Piece(s.thread.held + Received(script), if Stop(script).PeerClosed? then LostToClose else LostToError)]
  }

  /** What a call of `RecvData` does not touch. */
  function Settled(t: Stream): (seq<bv8>, bool, bool, bool, bool) {
    (t.arrived, t.closed, t.watched, t.open, t.strayed)
  }

  /** Where one call of `RecvData` leaves the thread, by its result. */
  function AfterRecvData(s: State, script: Script): Thread
    requires s.thread.Draining?
  {
    if StopIsError(script, s.errno) then Handling(s.thread.batch)
    else Drained(s.thread.fd, s.thread.held + Received(script), s.thread.batch)
  }

  /**
  The kernel may hand over what is pending in any pieces and end with a close or
  a failure: the drain succeeds exactly when `RecvData` does, leaves the same
  errno and then holds what it appends; otherwise those bytes are thrown away.
  */
  lemma {:induction false} DrainIsRecvData(s: State, script: Script)
    requires s.thread.Draining? && s.thread.fd in s.streams && Gives(s.streams[s.thread.fd], script)
    ensures Legal(s, Reads(script))
    ensures var u := After(s, Reads(script));
            && u.thread == AfterRecvData(s, script) && u.errno == ErrnoAtStop(script, s.errno)
            && s.thread.fd in u.streams && u.streams[s.thread.fd].pending == []
            && u.streams[s.thread.fd].calls == s.streams[s.thread.fd].calls
               + ThrownAway(s, script)
            && Settled(u.streams[s.thread.fd]) == Settled(s.streams[s.thread.fd])
            && (StopIsError(script, s.errno) ==> u.streams[s.thread.fd].failed)
    decreases |script|
  {
    var fd := s.thread.fd;
    if Next(script).Data? {
      var t := ReadOne(s, script);
      DrainIsRecvData(t, script[1..]);
      assert Reads(script)[1..] == Reads(script[1..]);
    } else {
      StopsHere(s, script);
    }
  }

  lemma StopsHere(s: State, script: Script)
    requires s.thread.Draining? && s.thread.fd in s.streams && Gives(s.streams[s.thread.fd], script)
    requires !Next(script).Data?
    ensures var e := Reads(script)[0];
            && Reads(script) == [e] && Enabled(s, e)
            && Legal(s, Reads(script)) && After(s, Reads(script)) == Apply(s, e)
    ensures var fd, u := s.thread.fd, After(s, Reads(script));
            && u.thread == AfterRecvData(s, script) && u.errno == ErrnoAtStop(script, s.errno)
            && fd in u.streams && u.streams[fd].pending == [] && Settled(u.streams[fd]) == Settled(s.streams[fd])
            && (StopIsError(script, s.errno) ==> u.streams[fd].failed)
            && u.streams[fd].calls == s.streams[fd].calls
               + ThrownAway(s, script)
  {
    var e := Reads(script)[0];
    assert Received(script) == [] && s.thread.held + [] == s.thread.held;
    assert [e][1..] == [];
  }

  /** One piece read off the front of what is pending. */
  lemma ReadOne(s: State, script: Script) returns (t: State)
    requires s.thread.Draining? && s.thread.fd in s.streams && Gives(s.streams[s.thread.fd], script)
    requires Next(script).Data?
    ensures var n, rest, fd := |script[0].bytes|, script[1..], s.thread.fd;
            && Enabled(s, Chunk(n)) && t == Apply(s, Chunk(n))
            && t.thread.Draining? && t.thread.fd == fd && t.thread.batch == s.thread.batch && t.errno == s.errno
            && fd in t.streams && Gives(t.streams[fd], rest) && t.streams[fd].calls == s.streams[fd].calls
            && Settled(t.streams[fd]) == Settled(s.streams[fd])
            && t.thread.held + Received(rest) == s.thread.held + Received(script)
            && Stop(script) == Stop(rest)
  {
    var bytes, rest := script[0].bytes, script[1..];
    t := Apply(s, Chunk(|bytes|));
    assert Received(script) == bytes + Received(rest);
    assert t.thread.held == s.thread.held + bytes;
  }
}
