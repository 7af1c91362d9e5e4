/**
How an IOCP server connection comes to an end: completed sends, the closing
receive, calls of `Disconnect` and disconnect packets, each cut into its atomic
reads and writes and run by any number of threads in any order.
*/
module ServerTeardown {

  type Context = nat

  /**
  One connection and everything that happens to it. Threads are anonymous: a
  state records how many of them stand at each point between two atomic steps.
  */
  datatype State = State(
    registered: bool,         // the connection is in the manager
    rcvPosted: bool,          // the first receive was accepted
    rcvClosed: bool,          // m_rcvClosed
    pending: nat,             // m_disconnectPending
    queued: set<Context>,     // the send queue
    inFlight: set<Context>,   // sends posted and not yet completed
    packets: nat,             // disconnect packets in the completion port
    callbacks: nat,           // OnDisconnect calls made
    // HandleSend
    completing: set<Context>, // completions that found the connection, context not yet removed
    orphaned: set<Context>,   // completions that did not: nobody will remove the context
    sawEmpty: nat,            // RemoveSendContext returned 0
    sawClosed: nat,           // ... and m_rcvClosed was set
    sendPosting: nat,         // ... and m_disconnectPending was set
    // OnClientDisconnect and Disconnect
    clientGone: nat,          // in the callback, about to call Disconnect
    counting: nat,            // connection found, about to increment m_disconnectPending
    posting: nat,             // about to post the packet
    // HandleAccept
    acceptPosting: nat,       // first receive refused, about to post a packet
    // HandleDisconnect
    checkingFlag: nat,        // connection found, first read of HasOutstandingContext
    checkingCount: nat,       // second read of HasOutstandingContext
    removing: nat,            // HasOutstandingContext returned false
    notifying: nat,           // RemoveConnection returned true
    // history
    stopping: bool            // a Disconnect has begun
  )

  datatype Event =
    | Create(c: Context)
    | PostAccepted(c: Context)
    | PostRefused(c: Context)
    | Complete(c: Context)
    | RemoveSend(c: Context)
    | ReadClosed
    | ReadPending
    | PostFromSend
    | FirstReceive(accepted: bool)
    | CloseReceive(disconnects: bool)
    | DisconnectFromCallback
    | Disconnect
    | Count
    | Post
    | PostFromAccept
    | Take
    | ReadFlag
    | ReadCount
    | Erase
    | Notify

  const INIT := State(true, false, false, 0, {}, {}, 0, 0, {}, {}, 0, 0, 0, 0, 0, 0, 0, 0, 0, 0, 0, false)

  /** In the send queue, with its post still to come. */
  predicate Unposted(s: State, c: Context) {
    c in s.queued && c !in s.inFlight && c !in s.completing && c !in s.orphaned
  }

  predicate Enabled(s: State, e: Event) {
    match e
    // Send looks the connection up before this step, so it may be gone by now.
    case Create(c) => c !in s.queued
    case PostAccepted(c) => Unposted(s, c)
    case PostRefused(c) => Unposted(s, c)
    case Complete(c) => c in s.inFlight
    case RemoveSend(c) => c in s.completing
    case ReadClosed => s.sawEmpty > 0
    case ReadPending => s.sawClosed > 0
    case PostFromSend => s.sendPosting > 0
    case FirstReceive(_) => !s.rcvPosted && !s.rcvClosed
    case CloseReceive(_) => s.rcvPosted && !s.rcvClosed
    case DisconnectFromCallback => s.clientGone > 0
    case Disconnect => true
    case Count => s.counting > 0
    case Post => s.posting > 0
    case PostFromAccept => s.acceptPosting > 0
    case Take => s.packets > 0
    case ReadFlag => s.checkingFlag > 0
    case ReadCount => s.checkingCount > 0
    case Erase => s.removing > 0
    case Notify => s.notifying > 0
  }

  function One(b: bool): nat {
    if b then 1 else 0
  }

  function Apply(s: State, e: Event): State
    requires Enabled(s, e)
  {
    match e
    case Create(c) => s.(queued := s.queued + {c})
    case PostAccepted(c) => s.(inFlight := s.inFlight + {c})
    case PostRefused(c) => s.(queued := s.queued - {c})
    case Complete(c) =>
      // HandleSend asserts that it finds the connection, and returns if it does not.
      if s.registered then s.(inFlight := s.inFlight - {c}, completing := s.completing + {c})
      else s.(inFlight := s.inFlight - {c}, orphaned := s.orphaned + {c})
    case RemoveSend(c) =>
      var left := s.queued - {c};
      s.(queued := left, completing := s.completing - {c}, sawEmpty := s.sawEmpty + One(left == {}))
    case ReadClosed => s.(sawEmpty := s.sawEmpty - 1, sawClosed := s.sawClosed + One(s.rcvClosed))
    case ReadPending => s.(sawClosed := s.sawClosed - 1, sendPosting := s.sendPosting + One(s.pending > 0))
    case PostFromSend => s.(sendPosting := s.sendPosting - 1, packets := s.packets + 1)
    case FirstReceive(accepted) =>
      if accepted then s.(rcvPosted := true)
      else s.(rcvClosed := true, acceptPosting := s.acceptPosting + 1)
    case CloseReceive(disconnects) => s.(rcvClosed := true, clientGone := s.clientGone + One(disconnects))
    case DisconnectFromCallback =>
      s.(clientGone := s.clientGone - 1, counting := s.counting + One(s.registered), stopping := true)
    case Disconnect => s.(counting := s.counting + One(s.registered), stopping := true)
    case Count => s.(counting := s.counting - 1, pending := s.pending + 1, posting := s.posting + 1)
    case Post => s.(posting := s.posting - 1, packets := s.packets + 1)
    case PostFromAccept => s.(acceptPosting := s.acceptPosting - 1, packets := s.packets + 1)
    case Take => s.(packets := s.packets - 1, checkingFlag := s.checkingFlag + One(s.registered))
    case ReadFlag => s.(checkingFlag := s.checkingFlag - 1, checkingCount := s.checkingCount + One(s.rcvClosed))
    case ReadCount => s.(checkingCount := s.checkingCount - 1, removing := s.removing + One(s.queued == {}))
    case Erase => s.(removing := s.removing - 1, notifying := s.notifying + One(s.registered), registered := false)
    case Notify => s.(notifying := s.notifying - 1, callbacks := s.callbacks + 1)
  }

  ghost predicate Legal(s: State, es: seq<Event>)
    decreases |es|
  {
    |es| == 0 || (Enabled(s, es[0]) && Legal(Apply(s, es[0]), es[1..]))
  }

  function After(s: State, es: seq<Event>): State
    requires Legal(s, es)
    decreases |es|
  {
    if |es| == 0 then s else After(Apply(s, es[0]), es[1..])
  }

  lemma {:induction false} AfterAppend(s: State, a: seq<Event>, b: seq<Event>)
    requires Legal(s, a) && Legal(After(s, a), b)
    ensures Legal(s, a + b) && After(s, a + b) == After(After(s, a), b)
    decreases |a|
  {
    hide Enabled, Apply;
    if |a| == 0 {
      assert a + b == b;
    } else {
      assert (a + b)[1..] == a[1..] + b;
      AfterAppend(Apply(s, a[0]), a[1..], b);
    }
  }

  /** A run taken one step further. */
  lemma Then(s: State, es: seq<Event>, e: Event) returns (more: seq<Event>)
    requires Legal(s, es) && Enabled(After(s, es), e)
    ensures more == es + [e] && Legal(s, more) && After(s, more) == Apply(After(s, es), e)
  {
    hide Enabled, Apply;
    var u := After(s, es);
    more := es + [e];
    assert [e][1..] == [];
    assert Legal(u, [e]) && After(u, [e]) == Apply(u, e);
    AfterAppend(s, es, [e]);
  }

  /** A state the server can reach, whatever the application does. */
  ghost predicate Reachable(s: State) {
    exists es: seq<Event> :: Legal(INIT, es) && After(INIT, es) == s
  }

  // ------------------------------------------------------------- what always holds

  /** The first receive could not be posted. The application is not told. */
  predicate Refused(s: State) {
    s.rcvClosed && !s.rcvPosted
  }

  /** A disconnect handler has found nothing outstanding, or the connection is gone. */
  predicate Leaving(s: State) {
    s.removing > 0 || !s.registered
  }

  predicate SendsTracked(s: State) {
    && s.inFlight !! s.completing !! s.orphaned && s.inFlight + s.completing + s.orphaned <= s.queued
    && (s.registered ==> s.orphaned == {})
  }

  predicate ClosedFirst(s: State) {
    s.checkingCount + s.clientGone + s.acceptPosting > 0 || Leaving(s) ==> s.rcvClosed
  }

  /** Everything that stems from a request to disconnect. */
  function Requests(s: State): nat {
    s.packets + s.counting + s.posting + s.acceptPosting + s.sendPosting
    + s.checkingFlag + s.checkingCount + s.pending
  }

  predicate Requested(s: State) {
    && (Requests(s) > 0 || Leaving(s) ==> s.stopping || Refused(s))
    && (s.acceptPosting > 0 ==> Refused(s))
    && (s.registered ==> (s.stopping <==> s.pending + s.counting > 0))
  }

  predicate NoticesMatch(s: State) {
    s.callbacks + s.notifying == One(!s.registered)
  }

  predicate Sound(s: State) {
    SendsTracked(s) && ClosedFirst(s) && Requested(s) && NoticesMatch(s)
  }

  lemma SendsTrackedStep(s: State, e: Event)
    requires SendsTracked(s) && Enabled(s, e)
    ensures SendsTracked(Apply(s, e))
  {
  }

  lemma ClosedFirstStep(s: State, e: Event)
    requires ClosedFirst(s) && Enabled(s, e)
    ensures ClosedFirst(Apply(s, e))
  {
  }

  /** The steps of Send and HandleSend. */
  predicate OfSends(e: Event) {
    e.Create? || e.PostAccepted? || e.PostRefused? || e.Complete? || e.RemoveSend?
    || e.ReadClosed? || e.ReadPending? || e.PostFromSend?
  }

  /** The steps of HandleDisconnect. */
  predicate OfRemoval(e: Event) {
    e.Take? || e.ReadFlag? || e.ReadCount? || e.Erase? || e.Notify?
  }

  lemma RequestedSendStep(s: State, e: Event)
    requires Requested(s) && Enabled(s, e) && OfSends(e)
    ensures Requested(Apply(s, e))
  {
  }

  lemma RequestedRemovalStep(s: State, e: Event)
    requires Requested(s) && Enabled(s, e) && OfRemoval(e)
    ensures Requested(Apply(s, e))
  {
  }

  lemma RequestedOtherStep(s: State, e: Event)
    requires ClosedFirst(s) && Requested(s) && Enabled(s, e) && !OfSends(e) && !OfRemoval(e)
    ensures Requested(Apply(s, e))
  {
  }

  lemma RequestedStep(s: State, e: Event)
    requires ClosedFirst(s) && Requested(s) && Enabled(s, e)
    ensures Requested(Apply(s, e))
  {
    hide Enabled, Apply, ClosedFirst, Requested;
    if OfSends(e) {
      RequestedSendStep(s, e);
    } else if OfRemoval(e) {
      RequestedRemovalStep(s, e);
    } else {
      RequestedOtherStep(s, e);
    }
  }

  lemma NoticesMatchStep(s: State, e: Event)
    requires NoticesMatch(s) && Enabled(s, e)
    ensures NoticesMatch(Apply(s, e))
  {
  }

  lemma SoundStep(s: State, e: Event)
    requires Sound(s) && Enabled(s, e)
    ensures Sound(Apply(s, e))
  {
    hide Enabled, Apply, SendsTracked, ClosedFirst, Requested, NoticesMatch;
    SendsTrackedStep(s, e);
    ClosedFirstStep(s, e);
    RequestedStep(s, e);
    NoticesMatchStep(s, e);
  }

  /**
  Every step of every handler, interleaved in any way and whatever the
  application does, keeps the books of the connection.
  */
  lemma {:induction false} SoundAlways(s: State, es: seq<Event>)
    requires Sound(s) && Legal(s, es)
    ensures Sound(After(s, es))
    decreases |es|
  {
    hide Enabled, Apply, Sound;
    if |es| != 0 {
      SoundStep(s, es[0]);
      SoundAlways(Apply(s, es[0]), es[1..]);
    }
  }

  lemma ReachableSound(s: State)
    requires Reachable(s)
    ensures Sound(s)
  {
    hide Enabled, Apply, Legal, After, Sound;
    var es: seq<Event> :| Legal(INIT, es) && After(INIT, es) == s;
    assert Sound(INIT) by {
      InitSound();
    }
    SoundAlways(INIT, es);
  }

  lemma InitSound()
    ensures Sound(INIT) && Safe(INIT)
  {
    hide Sound, Safe;
    NewConnectionSound(INIT);
  }

  lemma NewConnectionSound(s: State)
    requires s.registered && !s.rcvClosed && !s.stopping && s.queued == s.inFlight == s.completing == s.orphaned == {}
    requires Requests(s) == 0 && s.clientGone == s.removing == s.notifying == s.callbacks == 0
    ensures Sound(s) && Safe(s)
  {
  }

  // ----------------------------------------------------------------- never too early

  /** No connection that is leaving has a send outstanding. */
  predicate Safe(s: State) {
    Leaving(s) ==> s.queued == {}
  }

  ghost predicate SafeThroughout(s: State, es: seq<Event>)
    requires Legal(s, es)
    decreases |es|
  {
    Safe(s) && (|es| == 0 || SafeThroughout(Apply(s, es[0]), es[1..]))
  }

  /** Every send is created while no handler has given the connection up. */
  ghost predicate SendsInTime(s: State, es: seq<Event>)
    requires Legal(s, es)
    decreases |es|
  {
    |es| == 0 || ((es[0].Create? ==> !Leaving(s)) && SendsInTime(Apply(s, es[0]), es[1..]))
  }

  lemma SafeStep(s: State, e: Event)
    requires Safe(s) && Enabled(s, e)
    ensures Safe(Apply(s, e)) <==> (e.Create? ==> !Leaving(s))
  {
  }

  /**
  Exactly when the connection is never given up early: a run keeps every
  outstanding send inside the connection's lifetime if and only if it creates
  none after a handler has found nothing outstanding.
  */
  lemma {:induction false} NeverEarlyExactly(s: State, es: seq<Event>)
    requires Safe(s) && Legal(s, es)
    ensures SafeThroughout(s, es) <==> SendsInTime(s, es)
    decreases |es|
  {
    hide Enabled, Apply, Safe, Leaving;
    if |es| != 0 {
      SafeStep(s, es[0]);
      var t := Apply(s, es[0]);
      if Safe(t) {
        NeverEarlyExactly(t, es[1..]);
      } else {
        assert !SafeThroughout(t, es[1..]);
      }
    }
  }

  /** What the application can keep to: it creates no send once a `Disconnect` has begun. */
  predicate Considerate(s: State, e: Event) {
    e.Create? ==> !s.stopping
  }

  /** What it would also have to keep to, without being told: none after a refused first receive. */
  predicate Forewarned(s: State, e: Event) {
    e.Create? ==> !Refused(s)
  }

  ghost predicate ConsiderateRun(s: State, es: seq<Event>)
    requires Legal(s, es)
    decreases |es|
  {
    |es| == 0 || (Considerate(s, es[0]) && ConsiderateRun(Apply(s, es[0]), es[1..]))
  }

  ghost predicate ForewarnedRun(s: State, es: seq<Event>)
    requires Legal(s, es)
    decreases |es|
  {
    |es| == 0 || (Forewarned(s, es[0]) && ForewarnedRun(Apply(s, es[0]), es[1..]))
  }

  lemma {:induction false} KeptRunsAreSafe(s: State, es: seq<Event>)
    requires Sound(s) && Safe(s) && Legal(s, es) && ConsiderateRun(s, es) && ForewarnedRun(s, es)
    ensures SendsInTime(s, es) && Sound(After(s, es)) && Safe(After(s, es))
    decreases |es|
  {
    hide Enabled, Apply, Safe, Sound;
    if |es| != 0 {
      if Leaving(s) {
        LeavingIsAnnounced(s);
      }
      SafeStep(s, es[0]);
      SoundStep(s, es[0]);
      KeptRunsAreSafe(Apply(s, es[0]), es[1..]);
    }
  }

  lemma LeavingIsAnnounced(s: State)
    requires Sound(s) && Leaving(s)
    ensures s.stopping || Refused(s)
  {
  }

  /**
  Never early: whatever the interleaving, if no send is created after a
  `Disconnect` has begun or the first receive was refused, the connection leaves
  the manager only with its receive closed and no send outstanding, every
  completion still finds it there, and the application hears of it at most once.
  */
  lemma TeardownNeverEarly(es: seq<Event>)
    requires Legal(INIT, es) && ConsiderateRun(INIT, es) && ForewarnedRun(INIT, es)
    ensures var s := After(INIT, es);
            && (!s.rcvClosed || s.queued != {} ==> s.registered && s.callbacks == 0)
            && (s.inFlight + s.completing != {} ==> s.registered) && s.orphaned == {}
            && s.callbacks <= 1 && (s.callbacks == 1 ==> !s.registered)
  {
    hide Sound, Safe, Legal, ConsiderateRun, ForewarnedRun, SendsInTime, After;
    InitSound();
    KeptRunsAreSafe(INIT, es);
    NothingLost(After(INIT, es));
  }

  lemma NothingLost(s: State)
    requires Sound(s) && Safe(s)
    ensures !s.rcvClosed || s.queued != {} ==> s.registered && s.callbacks == 0
    ensures (s.inFlight + s.completing != {} ==> s.registered) && s.orphaned == {}
    ensures s.callbacks <= 1 && (s.callbacks == 1 ==> !s.registered)
  {
    if s.inFlight + s.completing != {} {
      var c :| c in s.inFlight + s.completing;
      assert c in s.queued;
    }
  }

  // ------------------------------------------------------- why the restraint matters

  lemma EmptyRun(s: State)
    ensures Legal(s, []) && After(s, []) == s
  {
  }

  /** A packet in the port is taken, and the connection given up if no send is queued. */
  lemma PacketIsLookedAt(s: State) returns (es: seq<Event>)
    requires s.registered && s.rcvClosed && s.packets > 0
    ensures es == [Take, ReadFlag, ReadCount] && Legal(s, es)
    ensures After(s, es) == s.(packets := s.packets - 1, removing := s.removing + One(s.queued == {}))
  {
    hide Legal, After;
    EmptyRun(s);
    es := Then(s, [], Take);
    es := Then(s, es, ReadFlag);
    es := Then(s, es, ReadCount);
  }

  /** A Disconnect that has found the connection is counted and posts its packet. */
  lemma DisconnectIsPosted(s: State) returns (es: seq<Event>)
    requires s.counting > 0
    ensures es == [Count, Post] && Legal(s, es)
    ensures After(s, es) == s.(counting := s.counting - 1, pending := s.pending + 1, packets := s.packets + 1)
  {
    hide Legal, After;
    EmptyRun(s);
    es := Then(s, [], Count);
    es := Then(s, es, Post);
  }

  /** The first receive is refused, and the packet that is posted for it. */
  lemma RefusalIsPosted() returns (es: seq<Event>)
    ensures es == [FirstReceive(false), PostFromAccept] && Legal(INIT, es)
    ensures After(INIT, es) == INIT.(rcvClosed := true, packets := 1)
  {
    hide Legal, After;
    EmptyRun(INIT);
    es := Then(INIT, [], FirstReceive(false));
    es := Then(INIT, es, PostFromAccept);
  }

  /** A new send is queued and posted. */
  lemma SendIsPosted(s: State, c: Context) returns (es: seq<Event>)
    requires c !in s.queued + s.inFlight + s.completing + s.orphaned
    ensures es == [Create(c), PostAccepted(c)] && Legal(s, es)
    ensures After(s, es) == s.(queued := s.queued + {c}, inFlight := s.inFlight + {c})
  {
    hide Legal, After;
    EmptyRun(s);
    es := Then(s, [], Create(c));
    es := Then(s, es, PostAccepted(c));
  }

  /**
  Both clauses are needed: the application obeys the one it can know of, and the
  completion of its send finds no connection, against the assert in HandleSend.
  */
  lemma SendAfterRefusalIsOrphaned() returns (es: seq<Event>)
    ensures es == [FirstReceive(false), PostFromAccept, Take, ReadFlag, ReadCount,
                   Create(0), PostAccepted(0), Erase, Complete(0)]
    ensures Legal(INIT, es) && !After(INIT, es).stopping
    ensures 0 in After(INIT, es).orphaned && 0 in After(INIT, es).queued && !After(INIT, es).registered
  {
    hide Legal, After;
    es := RefusalIsPosted();
    var look := PacketIsLookedAt(After(INIT, es));
    AfterAppend(INIT, es, look);
    es := es + look;
    var send := SendIsPosted(After(INIT, es), 0);
    AfterAppend(INIT, es, send);
    es := Then(INIT, es + send, Erase);
    es := Then(INIT, es, Complete(0));
  }

  /** An ordinary end of a connection reaches the moment at which a send is too late. */
  lemma LeavingIsReached() returns (es: seq<Event>)
    ensures es == [FirstReceive(true), CloseReceive(true), DisconnectFromCallback,
                   Count, Post, Take, ReadFlag, ReadCount]
    ensures Legal(INIT, es) && After(INIT, es).registered && After(INIT, es).removing == 1
  {
    hide Legal, After;
    EmptyRun(INIT);
    es := Then(INIT, [], FirstReceive(true));
    es := Then(INIT, es, CloseReceive(true));
    es := Then(INIT, es, DisconnectFromCallback);
    var post := DisconnectIsPosted(After(INIT, es));
    AfterAppend(INIT, es, post);
    es := es + post;
    var look := PacketIsLookedAt(After(INIT, es));
    AfterAppend(INIT, es, look);
    es := es + look;
  }

  ghost predicate NoSends(es: seq<Event>) {
    forall e :: e in es ==> !e.Create?
  }

  /** This send will still be outstanding when the connection has gone. */
  ghost predicate CanBeOrphaned(s: State, c: Context) {
    exists es: seq<Event> :: Legal(s, es) && NoSends(es) && c in After(s, es).queued && !After(s, es).registered
  }

  /**
  A new send can outlive its connection, and its completion then finds nothing in
  the manager, if and only if it is created after a disconnect handler has seen
  nothing outstanding.
  */
  lemma LateSendOutlivesConnection(s: State, c: Context)
    requires Reachable(s) && c !in s.queued
    ensures CanBeOrphaned(Apply(s, Create(c)), c) <==> Leaving(s)
  {
    hide Legal, After, Reachable;
    var t := Apply(s, Create(c));
    if Leaving(s) {
      EmptyRun(t);
      if s.registered {
        var es := Then(t, [], Erase);
        assert NoSends(es) && c in After(t, es).queued && !After(t, es).registered;
      } else {
        assert NoSends([]) && c in After(t, []).queued;
      }
    } else {
      forall es: seq<Event> | Legal(t, es) && NoSends(es) && c in After(t, es).queued
        ensures After(t, es).registered
      {
        StaysForSend(t, c, es);
      }
    }
  }

  lemma {:induction false} StaysForSend(s: State, c: Context, es: seq<Event>)
    requires !Leaving(s) && Legal(s, es) && NoSends(es) && c in After(s, es).queued
    ensures !Leaving(After(s, es)) && c in s.queued
    decreases |es|
  {
    hide Apply, Enabled;
    if |es| != 0 {
      var e, t := es[0], Apply(s, es[0]);
      assert !e.Create?;
      if Leaving(t) {
        LeavesEmpty(s, e);
        StaysEmpty(t, c, es[1..]);
      } else {
        StaysForSend(t, c, es[1..]);
        QueueShrinks(s, e);
      }
    }
  }

  lemma LeavesEmpty(s: State, e: Event)
    requires !Leaving(s) && Enabled(s, e) && Leaving(Apply(s, e))
    ensures Apply(s, e).queued == {}
  {
  }

  lemma QueueShrinks(s: State, e: Event)
    requires Enabled(s, e) && !e.Create?
    ensures Apply(s, e).queued <= s.queued
  {
    if e.PostRefused? || e.RemoveSend? {
    } else {
      assert Apply(s, e).queued == s.queued;
    }
  }

  lemma {:induction false} StaysEmpty(s: State, c: Context, es: seq<Event>)
    requires Legal(s, es) && NoSends(es) && c !in s.queued
    ensures c !in After(s, es).queued
    decreases |es|
  {
    hide Apply, Enabled;
    if |es| != 0 {
      QueueShrinks(s, es[0]);
      StaysEmpty(Apply(s, es[0]), c, es[1..]);
    }
  }
}
